/**
 * The `name=value; name=value` cookie header that the wizard and the browser
 * service build from pairs, and the line test both credential scanners use
 * to recognise a pasted header.
 */
module Cookies {
  import opened Wrappers
  import opened Text

  /** `f"{k}={v}"`. */
  function PairText(p: (string, string)): string {
    p.0 + "=" + p.1
  }

  function PairTexts(pairs: seq<(string, string)>): (r: seq<string>)
    ensures |r| == |pairs| && forall i :: 0 <= i < |pairs| ==> r[i] == PairText(pairs[i])
  {
    seq(|pairs|, i requires 0 <= i < |pairs| => PairText(pairs[i]))
  }

  /** `"; ".join(f"{k}={v}" for k, v in pairs)`. */
  function CookieString(pairs: seq<(string, string)>): string {
    Join(PairTexts(pairs), "; ")
  }

  /** A header built from at least one pair is never empty: every `k=v` text holds its `=`. */
  lemma CookieStringNonEmpty(pairs: seq<(string, string)>)
    requires pairs != []
    ensures CookieString(pairs) != ""
  {
    var ts := PairTexts(pairs);
    assert '=' in ts[0] by { assert ts[0] == PairText(pairs[0]); assert ts[0][|pairs[0].0|] == '='; }
    if |ts| > 1 {
      assert Join(ts, "; ") == ts[0] + "; " + Join(ts[1..], "; ");
    }
  }

  /**
   * A pair that survives being written into a header and parsed back: a
   * non-empty name without `;`, `=` or `"`, a non-empty value without `;`,
   * and no whitespace at either end of either.
   */
  predicate WellFormedPair(p: (string, string)) {
    p.0 != "" && p.1 != "" && ';' !in p.0 && ';' !in p.1 && '=' !in p.0 && '"' !in p.0
    && Trimmed(p.0) && Trimmed(p.1)
  }

  predicate AllWellFormed(pairs: seq<(string, string)>) {
    forall i :: 0 <= i < |pairs| ==> WellFormedPair(pairs[i])
  }

  function Spaced(parts: seq<string>): (r: seq<string>)
    ensures |r| == |parts| && forall i :: 0 <= i < |parts| ==> r[i] == " " + parts[i]
  {
    seq(|parts|, i requires 0 <= i < |parts| => " " + parts[i])
  }

  lemma {:induction false} JoinSpaced(parts: seq<string>)
    requires |parts| >= 1
    ensures Join(Spaced(parts), ";") == " " + Join(parts, "; ")
    decreases |parts|
  {
    if |parts| > 1 {
      assert Spaced(parts)[1..] == Spaced(parts[1..]);
      JoinSpaced(parts[1..]);
    }
  }

  /** Joining with `"; "` is joining with `;` once every part but the first gains a leading space. */
  lemma JoinSemicolonSpace(parts: seq<string>)
    requires |parts| >= 1
    ensures Join(parts, "; ") == Join([parts[0]] + Spaced(parts[1..]), ";")
  {
    var q := [parts[0]] + Spaced(parts[1..]);
    if |parts| > 1 {
      var rest := Join(parts[1..], "; ");
      assert q[1..] == Spaced(parts[1..]);
      JoinSpaced(parts[1..]);
      assert Join(q, ";") == parts[0] + ";" + (" " + rest);
      assert ";" + " " == "; ";
      Regroup(parts[0], ";", " ", rest);
      assert Join(parts, "; ") == parts[0] + "; " + rest;
    } else {
      assert q == [parts[0]];
      assert Join(q, ";") == parts[0];
    }
  }

  lemma Regroup(a: string, b: string, c: string, d: string)
    ensures a + b + (c + d) == a + (b + c) + d
  {
  }

  lemma PairTextShape(p: (string, string))
    requires WellFormedPair(p)
    ensures Trimmed(PairText(p)) && ';' !in PairText(p) && '=' in PairText(p)
  {
    var t := PairText(p);
    assert t[0] == p.0[0];
    assert t[|t| - 1] == p.1[|p.1| - 1];
    assert t[|p.0|] == '=';
  }

  /** The pieces a header of `texts` splits into: every one but the first keeps the space after `;`. */
  function Pieces(texts: seq<string>): (r: seq<string>)
    requires |texts| >= 1
    ensures |r| == |texts|
  {
    [texts[0]] + Spaced(texts[1..])
  }

  lemma PieceShape(pairs: seq<(string, string)>, i: nat)
    requires AllWellFormed(pairs) && i < |pairs|
    ensures ';' !in Pieces(PairTexts(pairs))[i]
    ensures Strip(Pieces(PairTexts(pairs))[i]) == PairText(pairs[i])
  {
    var texts := PairTexts(pairs);
    var piece := Pieces(texts)[i];
    PairTextShape(pairs[i]);
    if i == 0 {
      assert piece == texts[0];
      StripSetNoop(texts[0], Whitespace);
    } else {
      assert piece == " " + texts[i];
      StripPadded(" ", texts[i], "");
      assert " " + texts[i] + "" == piece;
    }
  }

  lemma SplitCookieString(pairs: seq<(string, string)>)
    requires AllWellFormed(pairs) && pairs != []
    ensures Split(CookieString(pairs), ';') == Pieces(PairTexts(pairs))
  {
    var pieces := Pieces(PairTexts(pairs));
    JoinSemicolonSpace(PairTexts(pairs));
    forall i | 0 <= i < |pieces|
      ensures ';' !in pieces[i]
    {
      PieceShape(pairs, i);
    }
    SplitJoin(pieces, ';');
  }

  /**
   * The header splits on `;` into one piece per pair, and each piece strips
   * back to that pair's `name=value` text.
   */
  lemma CookiePieces(pairs: seq<(string, string)>)
    requires AllWellFormed(pairs)
    ensures pairs == [] ==> Split(CookieString(pairs), ';') == [""]
    ensures pairs != [] ==> |Split(CookieString(pairs), ';')| == |pairs|
    ensures forall i :: 0 <= i < |pairs| ==> Strip(Split(CookieString(pairs), ';')[i]) == PairText(pairs[i])
  {
    if pairs != [] {
      SplitCookieString(pairs);
      forall i | 0 <= i < |pairs|
        ensures Strip(Split(CookieString(pairs), ';')[i]) == PairText(pairs[i])
      {
        PieceShape(pairs, i);
      }
    }
  }

  /** The line test both scanners apply: the line names `pplx.visitor-id` and holds an `=`. */
  predicate Qualifies(line: string) {
    Contains(line, "pplx.visitor-id") && '=' in line
  }

  /**
   * What a qualifying line yields: the stripped text after its first
   * `Cookie:`, otherwise the stripped line itself when it holds a `;`.
   */
  function LineCookie(line: string): (r: Option<string>)
    ensures r.None? <==> !Contains(line, "Cookie:") && ';' !in line
    ensures r.Some? ==> Trimmed(r.value)
    ensures !Contains(line, "Cookie:") && ';' in line ==> r == Some(Strip(line))
  {
    if Contains(line, "Cookie:") then
      var after := AfterFirst(line, "Cookie:");
      StripTrimmed(after);
      Some(Strip(after))
    else if ';' in line then
      StripTrimmed(line);
      Some(Strip(line))
    else None
  }

  /** A line holding `Cookie:` yields the stripped text after the first occurrence of it. */
  lemma LineCookieAfterFirst(line: string)
    requires Contains(line, "Cookie:")
    ensures exists k: nat :: (OccursAt(line, "Cookie:", k) && (forall j: nat :: j < k ==> !OccursAt(line, "Cookie:", j)) &&
      LineCookie(line) == Some(Strip(line[k + 7..])))
  {
    var k := Find(line, "Cookie:").value;
    assert LineCookie(line) == Some(Strip(line[k + 7..]));
  }
}
