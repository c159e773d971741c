/**
 * `Settings.get_initial_cookies_dict`: the `PPLX_COOKIE` header read from
 * the environment, turned into the ordered cookie records the browser
 * service starts from.
 */
module Settings {
  import opened Wrappers
  import opened Text
  import opened Cookies

  /** `Settings.TARGET_URL`, the site every initial cookie is scoped to. */
  const TargetUrl: string := "https://www.perplexity.ai"

  /** One `{"name": ..., "value": ..., "url": ...}` record. */
  datatype CookieRecord = CookieRecord(name: string, value: string, url: string)

  /** `raw[1:-1]` when `raw` starts and ends with `"` (a lone `"` becomes empty), else `raw`. */
  function Unquote(raw: string): string {
    if StartsWith(raw, "\"") && EndsWith(raw, "\"") then
      if |raw| >= 2 then raw[1..|raw| - 1] else ""
    else raw
  }

  /** `'=' in item` survives `strip()`, so the split in `ItemRecord` always finds one. */
  lemma EqualsSurvivesStrip(item: string)
    requires '=' in item
    ensures '=' in Strip(item)
  {
    StripSetKeeps(item, Whitespace, '=');
  }

  /**
   * One `;`-separated item: stripped as a whole, cut at its first `=`, kept
   * when both sides are non-empty (neither side is stripped on its own).
   */
  function ItemRecord(item: string): (r: Option<CookieRecord>)
    ensures '=' !in item ==> r.None?
    ensures r.Some? ==> Strip(item) == r.value.name + "=" + r.value.value
    ensures r.Some? ==> '=' !in r.value.name && r.value.name != "" && r.value.value != ""
    ensures r.Some? ==> r.value.url == TargetUrl
  {
    if '=' in item then
      EqualsSurvivesStrip(item);
      var (name, value) := SplitOnceChar(Strip(item), '=');
      if name != "" && value != "" then Some(CookieRecord(name, value, TargetUrl)) else None
    else None
  }

  /** The records of `items`, in order. */
  function ItemRecords(items: seq<string>): (r: seq<CookieRecord>)
    ensures |r| <= |items|
    ensures forall i :: 0 <= i < |r| ==> r[i].url == TargetUrl && r[i].name != "" && r[i].value != ""
  {
    if items == [] then []
    else
      var init := ItemRecords(items[..|items| - 1]);
      match ItemRecord(items[|items| - 1])
      case Some(rec) => init + [rec]
      case None => init
  }

  /** The whole parse of a `PPLX_COOKIE` value. */
  function InitialCookies(raw: string): (r: seq<CookieRecord>)
    ensures raw == "" ==> r == []
    ensures forall i :: 0 <= i < |r| ==> r[i].url == TargetUrl && r[i].name != "" && r[i].value != ""
  {
    if raw == "" then [] else ItemRecords(Split(Unquote(raw), ';'))
  }

  /** `get_initial_cookies_dict`, with `self.PPLX_COOKIE` passed in. */
  method GetInitialCookiesDict(pplxCookie: string) returns (cookies: seq<CookieRecord>)
    ensures cookies == InitialCookies(pplxCookie)
  {
    cookies := [];
    var rawCookie := pplxCookie;
    if rawCookie == "" {
      return;
    }
    if StartsWith(rawCookie, "\"") && EndsWith(rawCookie, "\"") {
      rawCookie := if |rawCookie| >= 2 then rawCookie[1..|rawCookie| - 1] else "";
    }
    assert rawCookie == Unquote(pplxCookie);
    var items := Split(rawCookie, ';');
    assert InitialCookies(pplxCookie) == ItemRecords(items);
    cookies := ParseItems(items);
  }

  /** The loop of `get_initial_cookies_dict` over the `;`-separated items. */
  method ParseItems(items: seq<string>) returns (cookies: seq<CookieRecord>)
    ensures cookies == ItemRecords(items)
  {
    cookies := [];
    var i := 0;
    while i < |items|
      invariant 0 <= i <= |items|
      invariant cookies == ItemRecords(items[..i])
    {
      var item := items[i];
      Snoc(items, i);
      ItemRecordsSnoc(items[..i], item);
      if '=' in item {
        EqualsSurvivesStrip(item);
        var (name, value) := SplitOnceChar(Strip(item), '=');
        ItemParts(item, name, value);
        if name != "" && value != "" {
          cookies := cookies + [CookieRecord(name, value, TargetUrl)];
        }
      }
      i := i + 1;
    }
    assert items[..|items|] == items;
  }

  /** The record of an item holding `=`, in terms of the two sides of its first `=`. */
  lemma ItemParts(item: string, name: string, value: string)
    requires '=' in item && '=' in Strip(item) && (name, value) == SplitOnceChar(Strip(item), '=')
    ensures ItemRecord(item) == if name != "" && value != "" then Some(CookieRecord(name, value, TargetUrl)) else None
  {
  }

  lemma ItemRecordsSnoc(items: seq<string>, item: string)
    ensures ItemRecords(items + [item]) ==
      match ItemRecord(item) case Some(rec) => ItemRecords(items) + [rec] case None => ItemRecords(items)
  {
    assert (items + [item])[..|items|] == items;
  }

  /** Items are parsed independently: the records of a concatenation are the concatenated records. */
  lemma {:induction false} ItemRecordsAppend(a: seq<string>, b: seq<string>)
    ensures ItemRecords(a + b) == ItemRecords(a) + ItemRecords(b)
    decreases |b|
  {
    if b == [] {
      assert a + b == a;
    } else {
      var b' := b[..|b| - 1];
      assert (a + b)[..|a + b| - 1] == a + b';
      assert (a + b)[|a + b| - 1] == b[|b| - 1];
      ItemRecordsAppend(a, b');
    }
  }

  /**
   * Surrounding whitespace goes, the value may itself hold `=`, and the name
   * keeps any inner spaces: the item is cut at its first `=` only.
   */
  lemma ItemWithPadding(w1: string, name: string, value: string, w2: string)
    requires forall i :: 0 <= i < |w1| ==> w1[i] in Whitespace
    requires forall i :: 0 <= i < |w2| ==> w2[i] in Whitespace
    requires name != "" && value != "" && '=' !in name
    requires name[0] !in Whitespace && value[|value| - 1] !in Whitespace
    ensures ItemRecord(w1 + name + "=" + value + w2) == Some(CookieRecord(name, value, TargetUrl))
  {
    var t := name + "=" + value;
    assert t[0] == name[0] && t[|t| - 1] == value[|value| - 1];
    assert w1 + name + "=" + value + w2 == w1 + t + w2;
    StripPadded(w1, t, w2);
    assert t[|name|] == '=';
    SplitOnceAt(name, value, '=');
  }

  /** Exactly one pair of surrounding double quotes is removed before the items are split. */
  lemma QuotedHeader(s: string)
    ensures InitialCookies("\"" + s + "\"") == ItemRecords(Split(s, ';'))
  {
    var q := "\"" + s + "\"";
    assert StartsWith(q, "\"") && EndsWith(q, "\"");
    assert q[1..|q| - 1] == s;
    assert Unquote(q) == s;
  }

  /** A quote at only one end is not removed: it stays part of the first item. */
  lemma HalfQuotedHeader(s: string)
    requires !EndsWith(s, "\"")
    ensures InitialCookies("\"" + s) == ItemRecords(Split("\"" + s, ';'))
  {
    var q := "\"" + s;
    if |s| > 0 {
      assert q[|q| - 1..] == s[|s| - 1..];
    }
  }

  lemma {:induction false} RecordsOfPieces(items: seq<string>, pairs: seq<(string, string)>)
    requires |items| == |pairs| && AllWellFormed(pairs)
    requires forall i :: 0 <= i < |items| ==> Strip(items[i]) == PairText(pairs[i])
    ensures ItemRecords(items) == Records(pairs)
    decreases |items|
  {
    if items != [] {
      var n := |items| - 1;
      RecordsOfPieces(items[..n], pairs[..n]);
      var p := pairs[n];
      PairTextShape(p);
      if '=' !in items[n] {
        StripSetWithin(items[n], Whitespace, '=');
      }
      SplitOnceAt(p.0, p.1, '=');
      assert ItemRecord(items[n]) == Some(CookieRecord(p.0, p.1, TargetUrl));
      assert Records(pairs) == Records(pairs[..n]) + [CookieRecord(p.0, p.1, TargetUrl)];
    }
  }

  /** The records a header of `pairs` should give back. */
  function Records(pairs: seq<(string, string)>): (r: seq<CookieRecord>)
    ensures |r| == |pairs|
    ensures forall i :: 0 <= i < |pairs| ==> r[i] == CookieRecord(pairs[i].0, pairs[i].1, TargetUrl)
  {
    if pairs == [] then []
    else Records(pairs[..|pairs| - 1]) + [CookieRecord(pairs[|pairs| - 1].0, pairs[|pairs| - 1].1, TargetUrl)]
  }

  /**
   * Reading back a header written as `"; ".join(f"{k}={v}")` gives every
   * well-formed pair back, in order, each scoped to the target site.
   */
  lemma HeaderRoundTrip(pairs: seq<(string, string)>)
    requires AllWellFormed(pairs)
    ensures InitialCookies(CookieString(pairs)) == Records(pairs)
  {
    var h := CookieString(pairs);
    CookiePieces(pairs);
    if pairs != [] {
      HeaderStart(pairs);
      assert Unquote(h) == h;
      RecordsOfPieces(Split(h, ';'), pairs);
    }
  }

  /** A non-empty header starts with the first cookie's name, so it is never taken for quoted. */
  lemma HeaderStart(pairs: seq<(string, string)>)
    requires AllWellFormed(pairs) && pairs != []
    ensures CookieString(pairs) != "" && CookieString(pairs)[0] == pairs[0].0[0] != '"'
  {
    var texts := PairTexts(pairs);
    var t0 := texts[0];
    assert t0[0] == pairs[0].0[0];
    if |texts| > 1 {
      assert CookieString(pairs) == t0 + "; " + Join(texts[1..], "; ");
    }
  }
}
