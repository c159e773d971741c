/**
 * The `.env` rewrite shared by the configuration wizard and the browser
 * service. The file is the list `readlines()` returns; every line that
 * starts with `PPLX_COOKIE=` (and, when a user agent is being written, every
 * line that starts with `PPLX_USER_AGENT=`) is replaced, and the ones that
 * were missing are appended, the cookie line first.
 */
module EnvFile {
  import opened Wrappers
  import opened Text

  const CookieKey: string := "PPLX_COOKIE="
  const UaKey: string := "PPLX_USER_AGENT="

  /** `f'PPLX_COOKIE="{cookie}"\n'`. */
  function CookieLine(cookie: string): string {
    CookieKey + "\"" + cookie + "\"\n"
  }

  /** `f'PPLX_USER_AGENT="{ua}"\n'`. */
  function UaLine(ua: string): string {
    UaKey + "\"" + ua + "\"\n"
  }

  /** A line the rewrite replaces; `ua` is None when only the cookie is written. */
  predicate Keyed(line: string, ua: Option<string>) {
    StartsWith(line, CookieKey) || (ua.Some? && StartsWith(line, UaKey))
  }

  /** Some line of `lines` starts with `key`. */
  predicate HasKeyLine(lines: seq<string>, key: string) {
    exists i :: 0 <= i < |lines| && StartsWith(lines[i], key)
  }

  /** One line after the rewrite. */
  function RewriteLine(line: string, cookie: string, ua: Option<string>): string {
    if StartsWith(line, CookieKey) then CookieLine(cookie)
    else if ua.Some? && StartsWith(line, UaKey) then UaLine(ua.value)
    else line
  }

  function RewriteEach(lines: seq<string>, cookie: string, ua: Option<string>): (r: seq<string>)
    ensures |r| == |lines| && forall i :: 0 <= i < |lines| ==> r[i] == RewriteLine(lines[i], cookie, ua)
  {
    seq(|lines|, i requires 0 <= i < |lines| => RewriteLine(lines[i], cookie, ua))
  }

  /** The new file: each line rewritten, then a missing cookie line, then a missing user-agent line. */
  function Rewrite(lines: seq<string>, cookie: string, ua: Option<string>): seq<string> {
    RewriteEach(lines, cookie, ua)
    + (if HasKeyLine(lines, CookieKey) then [] else [CookieLine(cookie)])
    + (if ua.Some? && !HasKeyLine(lines, UaKey) then [UaLine(ua.value)] else [])
  }

  /** The loop the three writers share, building `new_lines` with its two flags. */
  method RewriteLines(lines: seq<string>, cookie: string, ua: Option<string>) returns (newLines: seq<string>)
    ensures newLines == Rewrite(lines, cookie, ua)
  {
    newLines := [];
    var hasCookie := false;
    var hasUa := false;
    for i := 0 to |lines|
      invariant newLines == RewriteEach(lines[..i], cookie, ua)
      invariant hasCookie == HasKeyLine(lines[..i], CookieKey)
      invariant hasUa == (ua.Some? && HasKeyLine(lines[..i], UaKey))
    {
      var line := lines[i];
      assert lines[..i + 1] == lines[..i] + [line];
      if StartsWith(line, CookieKey) {
        newLines := newLines + [CookieLine(cookie)];
        hasCookie := true;
      } else if ua.Some? && StartsWith(line, UaKey) {
        newLines := newLines + [UaLine(ua.value)];
        hasUa := true;
      } else {
        newLines := newLines + [line];
      }
      KeysExclusive(line);
    }
    assert lines[..|lines|] == lines;
    if !hasCookie {
      newLines := newLines + [CookieLine(cookie)];
    }
    if ua.Some? && !hasUa {
      newLines := newLines + [UaLine(ua.value)];
    }
  }

  /** No line starts with both keys. */
  lemma KeysExclusive(line: string)
    ensures !(StartsWith(line, CookieKey) && StartsWith(line, UaKey))
  {
    if StartsWith(line, CookieKey) {
      assert line[5] == CookieKey[5] == 'C';
      assert UaKey[5] == 'U';
    }
  }

  /** The lines the rewrite must leave alone, in order. */
  function OtherLines(lines: seq<string>, ua: Option<string>): seq<string> {
    if lines == [] then []
    else
      var last := lines[|lines| - 1];
      OtherLines(lines[..|lines| - 1], ua) + (if Keyed(last, ua) then [] else [last])
  }

  lemma {:induction false} OtherLinesAppend(a: seq<string>, b: seq<string>, ua: Option<string>)
    ensures OtherLines(a + b, ua) == OtherLines(a, ua) + OtherLines(b, ua)
    decreases |b|
  {
    if b == [] {
      assert a + b == a;
    } else {
      var b' := b[..|b| - 1];
      assert (a + b)[..|a + b| - 1] == a + b';
      OtherLinesAppend(a, b', ua);
    }
  }

  /** The written lines carry their own key, and only that one. */
  lemma WrittenLinesKeyed(cookie: string, ua: string)
    ensures StartsWith(CookieLine(cookie), CookieKey) && !StartsWith(CookieLine(cookie), UaKey)
    ensures StartsWith(UaLine(ua), UaKey) && !StartsWith(UaLine(ua), CookieKey)
  {
    assert CookieLine(cookie)[5] == 'C';
    assert UaLine(ua)[5] == 'U';
    assert CookieLine(cookie)[..|CookieKey|] == CookieKey;
    assert UaLine(ua)[..|UaKey|] == UaKey;
  }

  lemma RewriteLineKeyed(line: string, cookie: string, ua: Option<string>)
    ensures Keyed(RewriteLine(line, cookie, ua), ua) <==> Keyed(line, ua)
    ensures !Keyed(line, ua) ==> RewriteLine(line, cookie, ua) == line
  {
    WrittenLinesKeyed(cookie, if ua.Some? then ua.value else "");
  }

  lemma {:induction false} OtherLinesRewriteEach(lines: seq<string>, cookie: string, ua: Option<string>)
    ensures OtherLines(RewriteEach(lines, cookie, ua), ua) == OtherLines(lines, ua)
    decreases |lines|
  {
    if lines != [] {
      var n := |lines| - 1;
      assert RewriteEach(lines, cookie, ua)[..n] == RewriteEach(lines[..n], cookie, ua);
      OtherLinesRewriteEach(lines[..n], cookie, ua);
      RewriteLineKeyed(lines[n], cookie, ua);
    }
  }

  /** Every line the rewrite does not own survives unchanged and in its original order. */
  lemma RewriteKeepsOthers(lines: seq<string>, cookie: string, ua: Option<string>)
    ensures OtherLines(Rewrite(lines, cookie, ua), ua) == OtherLines(lines, ua)
  {
    var each := RewriteEach(lines, cookie, ua);
    var c: seq<string> := if HasKeyLine(lines, CookieKey) then [] else [CookieLine(cookie)];
    var u: seq<string> := if ua.Some? && !HasKeyLine(lines, UaKey) then [UaLine(ua.value)] else [];
    WrittenLinesKeyed(cookie, if ua.Some? then ua.value else "");
    OtherLinesRewriteEach(lines, cookie, ua);
    OtherLinesAppend(each, c, ua);
    OtherLinesAppend(each + c, u, ua);
    if c != [] {
      assert OtherLines(c, ua) == OtherLines([], ua) + [];
    }
    if u != [] {
      assert OtherLines(u, ua) == OtherLines([], ua) + [];
    }
  }

  /**
   * Afterwards the file holds a cookie line, every cookie line carries the
   * new cookie, and the same for the user agent when one is written.
   */
  lemma RewriteSetsValues(lines: seq<string>, cookie: string, ua: Option<string>)
    ensures var r := Rewrite(lines, cookie, ua);
      HasKeyLine(r, CookieKey) &&
      forall i :: 0 <= i < |r| && StartsWith(r[i], CookieKey) ==> r[i] == CookieLine(cookie)
    ensures var r := Rewrite(lines, cookie, ua);
      ua.Some? ==>
        HasKeyLine(r, UaKey) &&
        forall i :: 0 <= i < |r| && StartsWith(r[i], UaKey) ==> r[i] == UaLine(ua.value)
  {
    RewriteSetsCookie(lines, cookie, ua);
    if ua.Some? {
      RewriteSetsUa(lines, cookie, ua.value);
    }
  }

  lemma RewriteSetsCookie(lines: seq<string>, cookie: string, ua: Option<string>)
    ensures var r := Rewrite(lines, cookie, ua);
      HasKeyLine(r, CookieKey) &&
      forall i :: 0 <= i < |r| && StartsWith(r[i], CookieKey) ==> r[i] == CookieLine(cookie)
  {
    var r := Rewrite(lines, cookie, ua);
    WrittenLinesKeyed(cookie, if ua.Some? then ua.value else "");
    if HasKeyLine(lines, CookieKey) {
      var i :| 0 <= i < |lines| && StartsWith(lines[i], CookieKey);
      assert r[i] == CookieLine(cookie);
    } else {
      assert r[|lines|] == CookieLine(cookie);
    }
  }

  lemma RewriteSetsUa(lines: seq<string>, cookie: string, ua: string)
    ensures var r := Rewrite(lines, cookie, Some(ua));
      HasKeyLine(r, UaKey) &&
      forall i :: 0 <= i < |r| && StartsWith(r[i], UaKey) ==> r[i] == UaLine(ua)
  {
    var r := Rewrite(lines, cookie, Some(ua));
    WrittenLinesKeyed(cookie, ua);
    if HasKeyLine(lines, UaKey) {
      var i :| 0 <= i < |lines| && StartsWith(lines[i], UaKey);
      assert r[i] == RewriteLine(lines[i], cookie, Some(ua));
      KeysExclusive(lines[i]);
      assert r[i] == UaLine(ua);
    } else {
      assert r[|r| - 1] == UaLine(ua);
    }
  }

  /** Rewriting a second time with the same values changes nothing. */
  lemma RewriteIdempotent(lines: seq<string>, cookie: string, ua: Option<string>)
    ensures Rewrite(Rewrite(lines, cookie, ua), cookie, ua) == Rewrite(lines, cookie, ua)
  {
    var r := Rewrite(lines, cookie, ua);
    RewriteSetsValues(lines, cookie, ua);
    WrittenLinesKeyed(cookie, if ua.Some? then ua.value else "");
    forall i | 0 <= i < |r|
      ensures RewriteLine(r[i], cookie, ua) == r[i]
    {
      if i < |lines| {
        RewriteLineKeyed(lines[i], cookie, ua);
      }
    }
    assert RewriteEach(r, cookie, ua) == r;
  }

  /** A file with no line of either kind keeps its lines and gains the cookie line, then the user-agent line. */
  lemma AppendedInOrder(lines: seq<string>, cookie: string, ua: string)
    requires forall i :: 0 <= i < |lines| ==> !Keyed(lines[i], Some(ua))
    ensures Rewrite(lines, cookie, Some(ua)) == lines + [CookieLine(cookie), UaLine(ua)]
  {
    assert RewriteEach(lines, cookie, Some(ua)) == lines;
  }
}
