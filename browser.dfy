/**
 * The string and dictionary handling of the browser service: cleaning
 * cookies loaded from a saved session, walking a dotted key path in a
 * session file, splitting a pasted cookie header, the fallback line scan,
 * the refresh throttle and the `.env` write-backs.
 */
module Browser {
  import opened Wrappers
  import opened Text
  import opened Dicts
  import opened Json
  import opened Cookies
  import opened EnvFile
  import Wizard

  // ---------------------------------------------------------------------
  // Cookie cleaning (initialize_session)
  // ---------------------------------------------------------------------

  /**
   * `re.sub(r'^-[a-z]\s*\^?"?', '', key)`: a command-line switch such as
   * `-b ^"` in front of the key is removed (the pattern is anchored, so at
   * most once).
   */
  function DropSwitch(key: string): string {
    if |key| >= 2 && key[0] == '-' && 'a' <= key[1] <= 'z' then
      var r := LStripSet(key[2..], Whitespace);
      var r1 := if r != [] && r[0] == '^' then r[1..] else r;
      if r1 != [] && r1[0] == '"' then r1[1..] else r1
    else key
  }

  /** The key cleaning chain: the switch, `^"` and `^%` escapes and all quotes removed, then stripped. */
  function CleanKey(key: string): (r: string)
    ensures '"' !in r && '\'' !in r && Trimmed(r)
  {
    var a := Replace(DropSwitch(key), "^\"", "");
    var b := Replace(a, "^%", "%");
    var c := Replace(b, "\"", "");
    var d := Replace(c, "'", "");
    StripSetWithin(d, Whitespace, '"');
    StripSetWithin(d, Whitespace, '\'');
    StripTrimmed(d);
    Strip(d)
  }

  /** A key with nothing to clean (no switch, no caret, no quote, no padding) is kept as it is. */
  lemma CleanKeyPlain(k: string)
    requires '"' !in k && '\'' !in k && '^' !in k && Trimmed(k)
    requires !(|k| >= 2 && k[0] == '-' && 'a' <= k[1] <= 'z')
    ensures CleanKey(k) == k
  {
    ReplaceAbsent(k, "^\"", "");
    ReplaceAbsent(k, "^%", "%");
    ReplaceAbsent(k, "\"", "");
    ReplaceAbsent(k, "'", "");
    StripSetNoop(k, Whitespace);
  }

  /** A pasted `-b ^"name^"` key: the switch, the padding after it and both `^"` escapes go. */
  lemma CleanKeySwitched(c: char, w: string, k: string)
    requires 'a' <= c <= 'z'
    requires forall i :: 0 <= i < |w| ==> w[i] in Whitespace
    requires '"' !in k && '\'' !in k && '^' !in k && Trimmed(k)
    ensures CleanKey(['-', c] + w + "^\"" + k + "^\"") == k
  {
    var key := ['-', c] + w + "^\"" + k + "^\"";
    DropSwitched(c, w, k);
    assert Replace(DropSwitch(key), "^\"", "") == k by {
      ReplacePlainPrefix(k, "^\"", "^\"", "");
      ReplaceAtStart("^\"", "", "");
    }
    CleanKeyRest(k);
  }

  /** The anchored switch pattern takes `-c`, the padding, `^` and `"` off the front. */
  lemma DropSwitched(c: char, w: string, k: string)
    requires 'a' <= c <= 'z'
    requires forall i :: 0 <= i < |w| ==> w[i] in Whitespace
    ensures DropSwitch(['-', c] + w + "^\"" + k + "^\"") == k + "^\""
  {
    var key := ['-', c] + w + "^\"" + k + "^\"";
    var t := "^\"" + k + "^\"";
    var u := "\"" + k + "^\"";
    assert key[0] == '-' && key[1] == c;
    assert key[2..] == w + t;
    assert t[0] == '^' && t[1..] == u;
    assert u[0] == '"' && u[1..] == k + "^\"";
    LStripPrefix(w, t, Whitespace);
    DropSwitchOf(key, t);
  }

  /** `DropSwitch` on a switched key, given what the padding strip leaves. */
  lemma DropSwitchOf(key: string, t: string)
    requires |key| >= 2 && key[0] == '-' && 'a' <= key[1] <= 'z'
    requires LStripSet(key[2..], Whitespace) == t && t != [] && t[0] == '^'
    ensures DropSwitch(key) == if t[1..] != [] && t[1..][0] == '"' then t[1..][1..] else t[1..]
  {
  }

  /** The steps after the `^"` removal leave a plain trimmed key alone. */
  lemma CleanKeyRest(k: string)
    requires '"' !in k && '\'' !in k && '^' !in k && Trimmed(k)
    ensures Strip(Replace(Replace(Replace(k, "^%", "%"), "\"", ""), "'", "")) == k
  {
    ReplaceAbsent(k, "^%", "%");
    ReplaceAbsent(k, "\"", "");
    ReplaceAbsent(k, "'", "");
    StripSetNoop(k, Whitespace);
  }

  /** A `^%` escape between plain parts becomes `%`. */
  lemma CleanKeyPercent(a: string, b: string)
    requires '"' !in a && '\'' !in a && '^' !in a && '"' !in b && '\'' !in b && '^' !in b
    requires a != [] && a[0] != '-' && Trimmed(a) && Trimmed(b)
    ensures CleanKey(a + "^%" + b) == a + "%" + b
  {
    var key := a + ("^%" + b);
    assert a + "^%" + b == key;
    NoSwitch(key);
    var s1 := Replace(key, "^\"", "");
    assert s1 == key by {
      ReplacePlainPrefix(a, "^%" + b, "^\"", "");
      CaretPercentKept(b);
    }
    var s2 := Replace(s1, "^%", "%");
    assert s2 == a + "%" + b by {
      ReplacePlainPrefix(a, "^%" + b, "^%", "%");
      ReplaceAtStart("^%", b, "%");
      ReplaceAbsent(b, "^%", "%");
    }
    PercentJoinPlain(a, b);
  }

  /** A key that does not open with `-` has no switch to drop. */
  lemma NoSwitch(key: string)
    requires key != [] && key[0] != '-'
    ensures DropSwitch(key) == key
  {
  }

  /** `^%` is not `^"`, so the first replacement keeps it. */
  lemma CaretPercentKept(b: string)
    requires '^' !in b
    ensures Replace("^%" + b, "^\"", "") == "^%" + b
  {
    var q := "^%" + b;
    assert q[..2][1] == '%';
    assert q[1..] == "%" + b;
    ReplaceAbsent("%" + b, "^\"", "");
  }

  /** The key with `%` put back is plain, so the remaining steps keep it. */
  lemma PercentJoinPlain(a: string, b: string)
    requires '"' !in a && '\'' !in a && '^' !in a && '"' !in b && '\'' !in b && '^' !in b
    requires a != [] && Trimmed(a) && Trimmed(b)
    ensures Strip(Replace(Replace(a + "%" + b, "\"", ""), "'", "")) == a + "%" + b
  {
    var r := a + "%" + b;
    assert Replace(r, "\"", "") == r by {
      assert '"' !in r;
      ReplaceAbsent(r, "\"", "");
    }
    assert Replace(r, "'", "") == r by {
      assert '\'' !in r;
      ReplaceAbsent(r, "'", "");
    }
    assert Strip(r) == r by {
      PercentJoinTrimmed(a, b);
      StripSetNoop(r, Whitespace);
    }
  }

  /** `%` is not whitespace, so joining trimmed parts around it gives a trimmed key. */
  lemma PercentJoinTrimmed(a: string, b: string)
    requires a != [] && Trimmed(a) && Trimmed(b)
    ensures Trimmed(a + "%" + b)
  {
    var r := a + "%" + b;
    assert r[0] == a[0];
    assert r[|r| - 1] == if b == [] then '%' else b[|b| - 1];
  }

  /** The cookie names that are put back in their exact form, in the order they are tried. */
  const Canonical: seq<string> :=
    ["pplx.visitor-id", "__Secure-next-auth.session-token", "cf_clearance", "__cf_bm", "__cflb"]

  /** The cleaned key with the canonical names put back in their exact form. */
  function NormaliseKey(key: string): string {
    if Contains(key, "pplx.visitor-id") then "pplx.visitor-id"
    else if Contains(key, "__Secure-next-auth.session-token") then "__Secure-next-auth.session-token"
    else if Contains(key, "cf_clearance") then "cf_clearance"
    else if Contains(key, "__cf_bm") then "__cf_bm"
    else if Contains(key, "__cflb") then "__cflb"
    else key
  }

  /** A key containing a canonical name becomes the first such name in `Canonical`; any other key is kept. */
  lemma NormaliseKeyFirstMatch(key: string)
    ensures (exists i :: 0 <= i < |Canonical| && NormaliseKey(key) == Canonical[i] && Contains(key, Canonical[i]) &&
               forall j :: 0 <= j < i ==> !Contains(key, Canonical[j]))
         || (NormaliseKey(key) == key && forall i :: 0 <= i < |Canonical| ==> !Contains(key, Canonical[i]))
  {
    FirstOfFive(key, Canonical);
  }

  /** The if-chain of `NormaliseKey` over any five names picks the first one the key contains. */
  lemma FirstOfFive(key: string, c: seq<string>)
    requires |c| == 5
    ensures var r := if Contains(key, c[0]) then c[0] else if Contains(key, c[1]) then c[1]
                     else if Contains(key, c[2]) then c[2] else if Contains(key, c[3]) then c[3]
                     else if Contains(key, c[4]) then c[4] else key;
      (exists i :: 0 <= i < |c| && r == c[i] && Contains(key, c[i]) && forall j :: 0 <= j < i ==> !Contains(key, c[j]))
      || (r == key && forall i :: 0 <= i < |c| ==> !Contains(key, c[i]))
  {
    if !Contains(key, c[0]) && Contains(key, c[1]) {
      assert forall j :: 0 <= j < 1 ==> !Contains(key, c[j]);
    } else if !Contains(key, c[0]) && !Contains(key, c[1]) && Contains(key, c[2]) {
      assert forall j :: 0 <= j < 2 ==> !Contains(key, c[j]);
    } else if !Contains(key, c[0]) && !Contains(key, c[1]) && !Contains(key, c[2]) && Contains(key, c[3]) {
      assert forall j :: 0 <= j < 3 ==> !Contains(key, c[j]);
    } else if !Contains(key, c[0]) && !Contains(key, c[1]) && !Contains(key, c[2]) && !Contains(key, c[3]) && Contains(key, c[4]) {
      assert forall j :: 0 <= j < 4 ==> !Contains(key, c[j]);
    }
  }

  /** The value cleaning chain for a string: escapes and `^` removed, stripped, trailing quotes dropped. */
  function CleanText(s: string): (r: string)
    ensures '^' !in r
    ensures r == [] || r[|r| - 1] != '\''
  {
    var a := Replace(s, "^\"", "");
    var b := Replace(a, "^%", "%");
    var c := Replace(b, "^", "");
    var d := Strip(c);
    StripSetWithin(c, Whitespace, '^');
    RStripSetWithin(d, {'"'}, '^');
    RStripSetWithin(RStripSet(d, {'"'}), {'\''}, '^');
    RStripSet(RStripSet(d, {'"'}), {'\''})
  }

  /** Only string values are cleaned; anything else is kept as it is. */
  function CleanValue(v: Json): (r: Json)
    ensures v.JStr? ==> r == JStr(CleanText(v.s))
    ensures !v.JStr? ==> r == v
  {
    if v.JStr? then JStr(CleanText(v.s)) else v
  }

  function CleanedPair(p: (string, Json)): (string, Json) {
    (NormaliseKey(CleanKey(p.0)), CleanValue(p.1))
  }

  /** `f` applied to every pair, in order. */
  function MapPairs(f: ((string, Json)) -> (string, Json), ps: Dict<Json>): (r: seq<(string, Json)>)
    ensures |r| == |ps|
  {
    if ps == [] then []
    else MapPairs(f, ps[..|ps| - 1]) + [f(ps[|ps| - 1])]
  }

  lemma {:induction false} MapPairsAt(f: ((string, Json)) -> (string, Json), ps: Dict<Json>, i: nat)
    requires i < |ps|
    ensures MapPairs(f, ps)[i] == f(ps[i])
    decreases |ps|
  {
    var n := |ps| - 1;
    if i < n {
      MapPairsAt(f, ps[..n], i);
    }
  }

  function CleanedPairs(cookies: Dict<Json>): (r: seq<(string, Json)>)
    ensures |r| == |cookies|
  {
    MapPairs(CleanedPair, cookies)
  }

  /** The loop filling `cleaned_cookies`: each cleaned pair assigned in order. */
  method CleanCookies(cookies: Dict<Json>) returns (cleaned: Dict<Json>)
    ensures cleaned == PutAll([], CleanedPairs(cookies))
  {
    cleaned := [];
    for i := 0 to |cookies|
      invariant cleaned == PutAll([], CleanedPairs(cookies[..i]))
    {
      assert cookies[..i + 1][..i] == cookies[..i];
      var (cleanedKey, cleanedValue) := CleanedPair(cookies[i]);
      assert CleanedPairs(cookies[..i + 1]) == CleanedPairs(cookies[..i]) + [CleanedPair(cookies[i])];
      PutAllSnoc([], CleanedPairs(cookies[..i]), cleanedKey, cleanedValue);
      cleaned := Put(cleaned, cleanedKey, cleanedValue);
    }
    assert cookies[..|cookies|] == cookies;
  }

  /** Every canonical name is free of quotes and surrounding whitespace. */
  lemma CanonicalClean(i: nat)
    requires i < |Canonical|
    ensures '"' !in Canonical[i] && '\'' !in Canonical[i] && Trimmed(Canonical[i])
  {
    var c := Canonical[i];
    assert forall j :: 0 <= j < |c| ==> NameChar(c[j]);
    NamePlain(c);
  }

  /** The characters of the canonical names. */
  predicate NameChar(c: char) {
    'a' <= c <= 'z' || 'A' <= c <= 'Z' || c == '.' || c == '-' || c == '_'
  }

  lemma NamePlain(s: string)
    requires forall j :: 0 <= j < |s| ==> NameChar(s[j])
    ensures '"' !in s && '\'' !in s && Trimmed(s)
  {
  }

  /**
   * The cleaned dictionary has distinct keys, each free of quotes and of
   * surrounding whitespace, and each key holds the value of the last
   * original entry that cleans to it.
   */
  lemma CleanedCookies(cookies: Dict<Json>, k: string)
    ensures DistinctKeys(PutAll([], CleanedPairs(cookies)))
    ensures Get(PutAll([], CleanedPairs(cookies)), k) == LastValue(CleanedPairs(cookies), k)
    ensures HasKey(PutAll([], CleanedPairs(cookies)), k) ==> '"' !in k && '\'' !in k && Trimmed(k)
  {
    var ps := CleanedPairs(cookies);
    PutAllDistinct([], ps);
    PutAllGet([], ps, k);
    if HasKey(PutAll([], ps), k) {
      var i :| 0 <= i < |ps| && ps[i] == (k, LastValue(ps, k).value) && forall j :: i < j < |ps| ==> ps[j].0 != k;
      var ck := CleanKey(cookies[i].0);
      MapPairsAt(CleanedPair, cookies, i);
      assert k == NormaliseKey(ck);
      NormaliseKeyFirstMatch(ck);
      if k != ck {
        var n :| 0 <= n < |Canonical| && k == Canonical[n];
        CanonicalClean(n);
      }
    }
  }

  // ---------------------------------------------------------------------
  // Session value lookup (_get_session_value)
  // ---------------------------------------------------------------------

  /** The value at the end of `keys`, descending only through dictionaries that hold the next key. */
  function Descend(v: Json, keys: seq<string>): Option<Json> {
    if keys == [] then Some(v)
    else if v.JObj? && HasKey(v.members, keys[0]) then Descend(Get(v.members, keys[0]).value, keys[1..])
    else None
  }

  /** `_get_session_value`; `data` is the loaded file, None when it is missing or unreadable. */
  method GetSessionValue(data: Option<Json>, keyPath: string, default: Json) returns (result: Json)
    ensures data.None? ==> result == default
    ensures data.Some? ==> result == Descend(data.value, Split(keyPath, '.')).GetOr(default)
  {
    if data.None? {
      return default;
    }
    var keys := Split(keyPath, '.');
    var value := data.value;
    for i := 0 to |keys|
      invariant Descend(data.value, keys) == Descend(value, keys[i..])
    {
      var key := keys[i];
      assert keys[i..][1..] == keys[i + 1..];
      if value.JObj? && HasKey(value.members, key) {
        value := Get(value.members, key).value;
      } else {
        return default;
      }
    }
    return value;
  }

  /** Following a path in two parts is following the first part, then the second from where it ended. */
  lemma {:induction false} DescendAppend(v: Json, a: seq<string>, b: seq<string>)
    ensures Descend(v, a + b) == match Descend(v, a) case None => None case Some(w) => Descend(w, b)
    decreases |a|
  {
    if a == [] {
      assert a + b == b;
    } else {
      assert (a + b)[0] == a[0];
      assert (a + b)[1..] == a[1..] + b;
      if v.JObj? && HasKey(v.members, a[0]) {
        DescendAppend(Get(v.members, a[0]).value, a[1..], b);
      }
    }
  }

  /** A dotted path `p.q` reaches what `q` reaches from the value `p` reaches. */
  lemma DottedPath(v: Json, p: string, q: string)
    ensures Descend(v, Split(p + "." + q, '.')) ==
      match Descend(v, Split(p, '.')) case None => None case Some(w) => Descend(w, Split(q, '.'))
  {
    assert p + "." + q == p + ['.'] + q;
    SplitAppend(p, q, '.');
    DescendAppend(v, Split(p, '.'), Split(q, '.'));
  }

  /** A one-key path is a dictionary lookup, and anything but a dictionary holding the key gives the default. */
  lemma SingleKey(v: Json, key: string, default: Json)
    requires '.' !in key
    ensures Descend(v, Split(key, '.')).GetOr(default) == PyIndex(v, key).GetOr(default)
  {
    SplitNoSep(key, '.');
    assert [key][1..] == [];
  }

  // ---------------------------------------------------------------------
  // Cookie header split (parse_cookie_string, step 7)
  // ---------------------------------------------------------------------

  /** One `;`-separated piece: stripped, cut at the first `=`, key and value stripped. */
  function PieceEntry(piece: string): (r: Option<(string, string)>)
    ensures r.Some? <==> '=' in Strip(piece)
    ensures r.Some? ==> Trimmed(r.value.0) && Trimmed(r.value.1)
  {
    var p := Strip(piece);
    if '=' in p then
      var (k, v) := SplitOnceChar(p, '=');
      StripTrimmed(k);
      StripTrimmed(v);
      Some((Strip(k), Strip(v)))
    else None
  }

  /** The values `f` gives for `xs`, in order, skipping the Nones. */
  function FilterMap(f: string -> Option<(string, string)>, xs: seq<string>): seq<(string, string)> {
    if xs == [] then []
    else
      var init := FilterMap(f, xs[..|xs| - 1]);
      match f(xs[|xs| - 1])
      case Some(e) => init + [e]
      case None => init
  }

  lemma FilterMapSnoc(f: string -> Option<(string, string)>, xs: seq<string>, x: string)
    ensures FilterMap(f, xs + [x]) == match f(x) case Some(e) => FilterMap(f, xs) + [e] case None => FilterMap(f, xs)
  {
    assert (xs + [x])[..|xs|] == xs;
  }

  /** The entries of the pieces, in order. */
  function PieceEntries(pieces: seq<string>): seq<(string, string)> {
    FilterMap(PieceEntry, pieces)
  }

  /** The cookie dictionary built from a header. */
  function ParsedCookies(cookieStr: string): Dict<string> {
    PutAll([], PieceEntries(Split(cookieStr, ';')))
  }

  /** `parse_cookie_string` on the header path: split on `;`, then the loop below. */
  method ParseCookieString(cookieStr: string) returns (cookies: Dict<string>)
    ensures cookies == ParsedCookies(cookieStr)
  {
    cookies := AssignPieces(Split(cookieStr, ';'));
  }

  /** The loop of `parse_cookie_string` filling `cookies_dict` from the pieces. */
  method AssignPieces(pieces: seq<string>) returns (cookies: Dict<string>)
    ensures cookies == PutAll([], PieceEntries(pieces))
  {
    cookies := [];
    ghost var entries: seq<(string, string)> := [];
    for i := 0 to |pieces|
      invariant entries == PieceEntries(pieces[..i])
      invariant cookies == PutAll([], entries)
    {
      Snoc(pieces, i);
      FilterMapSnoc(PieceEntry, pieces[..i], pieces[i]);
      var pair := Strip(pieces[i]);
      if '=' in pair {
        var (key, value) := SplitOnceChar(pair, '=');
        PutAllSnoc([], entries, Strip(key), Strip(value));
        cookies := Put(cookies, Strip(key), Strip(value));
        entries := entries + [(Strip(key), Strip(value))];
      }
    }
    assert pieces[..|pieces|] == pieces;
  }

  /** A later piece with the same key overwrites an earlier one. */
  lemma LaterPairWins(cookieStr: string, k: string)
    ensures Get(ParsedCookies(cookieStr), k) == LastValue(PieceEntries(Split(cookieStr, ';')), k)
  {
    PutAllGet([], PieceEntries(Split(cookieStr, ';')), k);
  }

  /** A piece that strips to a well-formed pair's text gives that pair back. */
  lemma PieceEntryOfPair(piece: string, p: (string, string))
    requires WellFormedPair(p) && Strip(piece) == PairText(p)
    ensures PieceEntry(piece) == Some(p)
  {
    PieceEntryOfParts(piece, p.0, p.1);
  }

  lemma PieceEntryOfParts(piece: string, k: string, v: string)
    requires Strip(piece) == k + ['='] + v && '=' !in k && Trimmed(k) && Trimmed(v)
    ensures PieceEntry(piece) == Some((k, v))
  {
    PieceEntrySplit(piece, k, v);
    StripSetNoop(k, Whitespace);
    StripSetNoop(v, Whitespace);
  }

  /** A piece whose stripped text is `k=v`, with `k` free of `=`, gives the stripped `k` and `v`: the cut is at the first `=`. */
  lemma PieceEntrySplit(piece: string, k: string, v: string)
    requires Strip(piece) == k + ['='] + v && '=' !in k
    ensures PieceEntry(piece) == Some((Strip(k), Strip(v)))
  {
    var t := Strip(piece);
    assert t[|k|] == '=';
    SplitOnceAt(k, v, '=');
  }

  lemma {:induction false} EntriesOfPieces(pieces: seq<string>, pairs: seq<(string, string)>)
    requires |pieces| == |pairs| && AllWellFormed(pairs)
    requires forall i :: 0 <= i < |pieces| ==> Strip(pieces[i]) == PairText(pairs[i])
    ensures PieceEntries(pieces) == pairs
    decreases |pieces|
  {
    if pieces != [] {
      var n := |pieces| - 1;
      EntriesOfPieces(pieces[..n], pairs[..n]);
      PieceEntryOfPair(pieces[n], pairs[n]);
      FilterMapStep(PieceEntry, pieces, pairs);
    }
  }

  /** One more element that `f` maps to the next wanted value extends the result by it. */
  lemma FilterMapStep(f: string -> Option<(string, string)>, xs: seq<string>, ys: seq<(string, string)>)
    requires |xs| == |ys| && xs != []
    requires FilterMap(f, xs[..|xs| - 1]) == ys[..|ys| - 1] && f(xs[|xs| - 1]) == Some(ys[|ys| - 1])
    ensures FilterMap(f, xs) == ys
  {
    var n := |xs| - 1;
    Snoc(xs, n);
    Snoc(ys, n);
    assert xs[..n + 1] == xs && ys[..n + 1] == ys;
    FilterMapSnoc(f, xs[..n], xs[n]);
  }

  /**
   * The header `_update_env_file` writes for a dictionary, or the PowerShell
   * join of the wizard, parses back to the same pairs when names are
   * distinct and every pair is well formed.
   */
  lemma HeaderRoundTrip(pairs: seq<(string, string)>)
    requires AllWellFormed(pairs) && DistinctKeys(pairs)
    ensures ParsedCookies(CookieString(pairs)) == pairs
  {
    HeaderEntries(pairs);
    PutAllFresh(pairs);
  }

  /** The pieces of a joined header map back to its pairs, in order. */
  lemma HeaderEntries(pairs: seq<(string, string)>)
    requires AllWellFormed(pairs)
    ensures PieceEntries(Split(CookieString(pairs), ';')) == pairs
  {
    CookiePieces(pairs);
    var pieces := Split(CookieString(pairs), ';');
    if pairs == [] {
      assert PieceEntries(pieces) == PieceEntries([""]);
      assert PieceEntries([""]) == [];
    } else {
      EntriesOfPieces(pieces, pairs);
    }
  }

  // ---------------------------------------------------------------------
  // Fallback line scan (parse_cookie_string, step 3)
  // ---------------------------------------------------------------------

  /** The index of the first qualifying line. */
  function FirstQualifying(lines: seq<string>): (r: Option<nat>)
    ensures r.Some? ==> r.value < |lines| && Qualifies(lines[r.value])
    ensures r.Some? ==> forall j :: 0 <= j < r.value ==> !Qualifies(lines[j])
    ensures r.None? ==> forall j :: 0 <= j < |lines| ==> !Qualifies(lines[j])
  {
    FirstWhere(Qualifies, lines)
  }

  /** What the scan settles on: the first qualifying line decides, whether or not it yields a cookie. */
  function FallbackCookie(lines: seq<string>): Option<string> {
    match FirstQualifying(lines)
    case None => None
    case Some(i) => LineCookie(lines[i])
  }

  /** The fallback scan over the lines of the pasted text after its outer `strip()`. */
  method FallbackScan(text: string) returns (cookie: Option<string>)
    ensures cookie == FallbackCookie(SplitLines(Strip(text)))
  {
    var lines := SplitLines(Strip(text));
    cookie := ScanLines(lines);
  }

  /** The loop with its `break`. */
  method ScanLines(lines: seq<string>) returns (cookie: Option<string>)
    ensures cookie == FallbackCookie(lines)
  {
    cookie := None;
    var i := 0;
    while i < |lines|
      invariant 0 <= i <= |lines|
      invariant forall j :: 0 <= j < i ==> !Qualifies(lines[j])
    {
      var line := lines[i];
      if Qualifies(line) {
        if Contains(line, "Cookie:") {
          cookie := Some(Strip(AfterFirst(line, "Cookie:")));
        } else if ';' in line && '=' in line {
          cookie := Some(Strip(line));
        }
        FallbackAt(lines, i);
        return;
      }
      i := i + 1;
    }
  }

  /** The first qualifying line decides the scan. */
  lemma FallbackAt(lines: seq<string>, i: nat)
    requires i < |lines| && Qualifies(lines[i])
    requires forall j :: 0 <= j < i ==> !Qualifies(lines[j])
    ensures FallbackCookie(lines) == LineCookie(lines[i])
  {
    var r := FirstQualifying(lines);
    assert r.Some?;
    assert !(r.value < i);
    assert !(r.value > i);
    assert r == Some(i);
  }

  /**
   * Against the wizard's scan: when this one finds a cookie both agree, and
   * this one alone comes back empty exactly when the first qualifying line
   * yields nothing while a later line would.
   */
  lemma FallbackVersusWizard(lines: seq<string>)
    ensures FallbackCookie(lines).Some? ==> FallbackCookie(lines) == Wizard.RegexScan(lines)
    ensures (FallbackCookie(lines).None? && Wizard.RegexScan(lines).Some?) <==>
      (FirstQualifying(lines).Some? && !Wizard.Yields(lines[FirstQualifying(lines).value]) &&
       exists j :: FirstQualifying(lines).value < j < |lines| && Wizard.Yields(lines[j]))
  {
    var y := FirstWhere(Wizard.Yields, lines);
    assert Wizard.RegexScan(lines) == if y.None? then None else LineCookie(lines[y.value]);
    FirstOfStronger(Qualifies, Wizard.Yields, lines);
  }

  /**
   * When `p` implies `q`, the first `p` element is at or after the first `q`
   * one; they coincide when the first `q` element satisfies `p`, and otherwise
   * a `p` element exists exactly when one comes later.
   */
  lemma FirstOfStronger(q: string -> bool, p: string -> bool, xs: seq<string>)
    requires forall x :: p(x) ==> q(x)
    ensures FirstWhere(q, xs).None? ==> FirstWhere(p, xs).None?
    ensures FirstWhere(q, xs).Some? && p(xs[FirstWhere(q, xs).value]) ==> FirstWhere(p, xs) == FirstWhere(q, xs)
    ensures FirstWhere(q, xs).Some? && !p(xs[FirstWhere(q, xs).value]) ==>
      (FirstWhere(p, xs).Some? <==> exists j :: FirstWhere(q, xs).value < j < |xs| && p(xs[j]))
  {
    var a := FirstWhere(q, xs);
    var b := FirstWhere(p, xs);
    if b.Some? {
      assert q(xs[b.value]);
    }
    if a.Some? && !p(xs[a.value]) && b.None? {
      assert forall j :: 0 <= j < |xs| ==> !p(xs[j]);
    }
  }

  // ---------------------------------------------------------------------
  // The service state: refresh throttle and `.env` write-backs
  // ---------------------------------------------------------------------

  class BrowserService {
    var cachedCookies: Dict<string>
    var cachedUserAgent: string
    var lastRefreshTime: real
    const refreshInterval: real

    /** `__init__`, with `settings.PPLX_USER_AGENT` passed in. */
    constructor(userAgent: string)
      ensures cachedCookies == [] && cachedUserAgent == userAgent
      ensures lastRefreshTime == 0.0 && refreshInterval == 300.0
    {
      cachedCookies := [];
      cachedUserAgent := userAgent;
      lastRefreshTime := 0.0;
      refreshInterval := 300.0;
    }

    /** The early exit of `refresh_context`: not forced, refreshed recently, and cookies already held. */
    predicate Throttled(force: bool, now: real)
      reads this
    {
      !force && now - lastRefreshTime < refreshInterval && cachedCookies != []
    }

    /**
     * `_update_env_file`: `lines` is the file as read, None when it does not
     * exist (then nothing is written).
     */
    method UpdateEnvFile(lines: Option<seq<string>>, newCookies: Dict<string>) returns (written: Option<seq<string>>)
      ensures lines.None? ==> written.None?
      ensures lines.Some? ==> written == Some(Rewrite(lines.value, CookieString(newCookies), None))
    {
      var cookieStr := CookieString(newCookies);
      if lines.None? {
        return None;
      }
      var newLines := RewriteLines(lines.value, cookieStr, None);
      written := Some(newLines);
    }

    /** `_update_env_with_cookies_and_ua`: the user agent falls back to the cached one when none is given. */
    method UpdateEnvWithCookiesAndUa(lines: Option<seq<string>>, cookies: Dict<string>, userAgent: Option<string>)
      returns (written: Option<seq<string>>)
      ensures lines.None? ==> written.None?
      ensures lines.Some? ==>
        written == Some(Rewrite(lines.value, CookieString(cookies),
          Some(if userAgent.Some? && userAgent.value != "" then userAgent.value else cachedUserAgent)))
    {
      if lines.None? {
        return None;
      }
      var cookieStr := CookieString(cookies);
      var ua := if userAgent.Some? && userAgent.value != "" then userAgent.value else cachedUserAgent;
      var newLines := RewriteLines(lines.value, cookieStr, Some(ua));
      written := Some(newLines);
    }

    /**
     * `refresh_context`. `now` is the clock when the call starts and
     * `finished` when the browser returns; `fetched` is what the browser
     * run produced (None when it returned None, a non-dictionary, or
     * raised). Returns the result and the `.env` lines written back.
     */
    method RefreshContext(force: bool, now: real, fetched: Option<Dict<string>>, finished: real, lines: Option<seq<string>>)
      returns (ok: bool, written: Option<seq<string>>)
      modifies this
      ensures old(Throttled(force, now)) ==> ok && written.None? && unchanged(this)
      ensures !old(Throttled(force, now)) && fetched.None? ==> !ok && written.None? && unchanged(this)
      ensures !old(Throttled(force, now)) && fetched.Some? ==>
        ok && cachedCookies == fetched.value && lastRefreshTime == finished &&
        cachedUserAgent == old(cachedUserAgent) &&
        written == (if lines.Some? then Some(Rewrite(lines.value, CookieString(fetched.value), None)) else None)
    {
      if !force && now - lastRefreshTime < refreshInterval && cachedCookies != [] {
        return true, None;
      }
      if fetched.None? {
        return false, None;
      }
      cachedCookies := fetched.value;
      lastRefreshTime := finished;
      written := UpdateEnvFile(lines, fetched.value);
      ok := true;
    }
  }
}
