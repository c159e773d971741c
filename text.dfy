/**
 * The Python string operations the core relies on (`strip`, `split`, `in`,
 * `startswith`, `replace`, `join`, `lower`, `splitlines`, `str(int)`),
 * written out over `seq<char>`.
 */
module Text {
  import opened Wrappers

  /** The characters for which Python's `str.isspace()` holds (what `strip()` removes). */
  const Whitespace: set<char> :=
    {' ', '\t', '\n', '\U{B}', '\U{C}', '\r', '\U{1C}', '\U{1D}', '\U{1E}', '\U{1F}',
     '\U{85}', '\U{A0}', '\U{1680}', '\U{2000}', '\U{2001}', '\U{2002}', '\U{2003}',
     '\U{2004}', '\U{2005}', '\U{2006}', '\U{2007}', '\U{2008}', '\U{2009}', '\U{200A}',
     '\U{2028}', '\U{2029}', '\U{202F}', '\U{205F}', '\U{3000}'}

  /** The line boundaries recognised by Python's `str.splitlines()` (`\r\n` counts as one). */
  const LineBreaks: set<char> :=
    {'\n', '\r', '\U{B}', '\U{C}', '\U{1C}', '\U{1D}', '\U{1E}', '\U{85}', '\U{2028}', '\U{2029}'}

  /** Python `s.startswith(p)`. */
  predicate StartsWith(s: string, p: string) {
    |p| <= |s| && s[..|p|] == p
  }

  /** Python `s.endswith(p)`. */
  predicate EndsWith(s: string, p: string) {
    |p| <= |s| && s[|s| - |p|..] == p
  }

  /** `p` occurs in `s` starting at position `i`. */
  predicate OccursAt(s: string, p: string, i: nat) {
    i + |p| <= |s| && s[i..i + |p|] == p
  }

  /** Python `s.find(p)`: the first position at which `p` occurs in `s`, or None for -1. */
  function Find(s: string, p: string): (r: Option<nat>)
    ensures r.Some? ==> OccursAt(s, p, r.value)
    ensures r.Some? ==> forall i: nat :: i < r.value ==> !OccursAt(s, p, i)
    ensures r.None? ==> forall i: nat :: !OccursAt(s, p, i)
    decreases |s|
  {
    if |p| > |s| then None
    else if s[..|p|] == p then Some(0)
    else
      var rest := Find(s[1..], p);
      assert forall i: nat :: 1 <= i ==> (OccursAt(s, p, i) <==> OccursAt(s[1..], p, i - 1)) by {
        forall i: nat | 1 <= i
          ensures OccursAt(s, p, i) <==> OccursAt(s[1..], p, i - 1)
        {
          if i + |p| <= |s| {
            var a, b := s[i..i + |p|], s[1..][i - 1..i - 1 + |p|];
            assert forall j :: 0 <= j < |p| ==> a[j] == b[j];
          }
        }
      }
      match rest
      case None => None
      case Some(k) => Some(k + 1)
  }

  /** Python `p in s` on strings. */
  predicate Contains(s: string, p: string) {
    Find(s, p).Some?
  }

  /** A witness occurrence is enough for `Contains`. */
  lemma ContainsAt(s: string, p: string, i: nat)
    requires OccursAt(s, p, i)
    ensures Contains(s, p)
  {
  }

  /** One-character needles: `[c] in s` holds exactly when `c` is a character of `s`. */
  lemma ContainsChar(s: string, c: char)
    ensures Contains(s, [c]) <==> c in s
  {
    if c in s {
      var i :| 0 <= i < |s| && s[i] == c;
      assert s[i..i + 1] == [c];
      assert OccursAt(s, [c], i);
    }
    if Contains(s, [c]) {
      var k := Find(s, [c]).value;
      assert s[k] == s[k..k + 1][0];
    }
  }

  /** Python `s[i:]` where `i` may exceed the length (slices clamp). */
  function Drop(s: string, i: nat): (r: string)
    ensures |r| == if i <= |s| then |s| - i else 0
  {
    if i <= |s| then s[i..] else ""
  }

  /** Python `s[:i]` where `i` may exceed the length (slices clamp). */
  function Take(s: string, i: nat): (r: string)
    ensures |r| == if i <= |s| then i else |s|
    ensures r == s[..|r|]
  {
    if i <= |s| then s[..i] else s
  }

  /** Python `s.lstrip(chars)`: drops leading characters that belong to `cs`. */
  function LStripSet(s: string, cs: set<char>): (r: string)
    ensures |r| <= |s| && r == s[|s| - |r|..]
    ensures r == [] || r[0] !in cs
    ensures forall i :: 0 <= i < |s| - |r| ==> s[i] in cs
  {
    if s != [] && s[0] in cs then LStripSet(s[1..], cs) else s
  }

  /** Python `s.rstrip(chars)`: drops trailing characters that belong to `cs`. */
  function RStripSet(s: string, cs: set<char>): (r: string)
    ensures |r| <= |s| && r == s[..|r|]
    ensures r == [] || r[|r| - 1] !in cs
    ensures forall i :: |r| <= i < |s| ==> s[i] in cs
  {
    if s != [] && s[|s| - 1] in cs then RStripSet(s[..|s| - 1], cs) else s
  }

  /** Python `s.strip(chars)`. */
  function StripSet(s: string, cs: set<char>): string {
    RStripSet(LStripSet(s, cs), cs)
  }

  /** Neither end of `s.strip(chars)` is one of `chars`. */
  lemma StripSetEnds(s: string, cs: set<char>)
    ensures var r := StripSet(s, cs); r == [] || (r[0] !in cs && r[|r| - 1] !in cs)
  {
    var l := LStripSet(s, cs);
    var r := RStripSet(l, cs);
    if r != [] {
      assert r[0] == l[0];
    }
  }

  /** Python `s.strip()`. */
  function Strip(s: string): string {
    StripSet(s, Whitespace)
  }

  /** A string with nothing to strip at either end is its own `strip()`. */
  lemma StripSetNoop(s: string, cs: set<char>)
    requires s == [] || (s[0] !in cs && s[|s| - 1] !in cs)
    ensures StripSet(s, cs) == s
  {
  }

  /** Leading characters from `cs` in front of an unstrippable string are all removed. */
  lemma {:induction false} LStripPrefix(w: string, s: string, cs: set<char>)
    requires forall i :: 0 <= i < |w| ==> w[i] in cs
    requires s == [] || s[0] !in cs
    ensures LStripSet(w + s, cs) == s
    decreases |w|
  {
    if w != [] {
      assert (w + s)[1..] == w[1..] + s;
      LStripPrefix(w[1..], s, cs);
    }
  }

  /** `strip()` removes exactly the whitespace prefix put in front of a stripped string. */
  lemma StripPrefixed(w: string, s: string)
    requires forall i :: 0 <= i < |w| ==> w[i] in Whitespace
    requires s == [] || (s[0] !in Whitespace && s[|s| - 1] !in Whitespace)
    ensures Strip(w + s) == s
  {
    LStripPrefix(w, s, Whitespace);
  }

  /** Neither end of `s` is whitespace, so `strip()` leaves it alone. */
  predicate Trimmed(s: string) {
    s == [] || (s[0] !in Whitespace && s[|s| - 1] !in Whitespace)
  }

  /** Stripping only removes characters: a character absent from `s` is absent afterwards. */
  lemma StripSetWithin(s: string, cs: set<char>, c: char)
    requires c !in s
    ensures c !in StripSet(s, cs)
  {
    var l := LStripSet(s, cs);
    assert forall i :: 0 <= i < |l| ==> l[i] == s[|s| - |l| + i];
    var r := RStripSet(l, cs);
    assert forall i :: 0 <= i < |r| ==> r[i] == l[i];
  }

  /** `rstrip` keeps a prefix: a character absent from `s` is absent afterwards. */
  lemma RStripSetWithin(s: string, cs: set<char>, c: char)
    requires c !in s
    ensures c !in RStripSet(s, cs)
  {
    var r := RStripSet(s, cs);
    assert forall i :: 0 <= i < |r| ==> r[i] == s[i];
  }

  /** Trailing characters from `cs` after an unstrippable string are all removed. */
  lemma {:induction false} RStripSuffix(s: string, w: string, cs: set<char>)
    requires forall i :: 0 <= i < |w| ==> w[i] in cs
    requires s == [] || s[|s| - 1] !in cs
    ensures RStripSet(s + w, cs) == s
    decreases |w|
  {
    if w == [] {
      assert s + w == s;
    } else {
      var w' := w[..|w| - 1];
      assert (s + w)[..|s + w| - 1] == s + w';
      RStripSuffix(s, w', cs);
    }
  }

  /** `strip()` removes exactly the whitespace put around a stripped string. */
  lemma StripPadded(w1: string, s: string, w2: string)
    requires forall i :: 0 <= i < |w1| ==> w1[i] in Whitespace
    requires forall i :: 0 <= i < |w2| ==> w2[i] in Whitespace
    requires Trimmed(s)
    ensures Strip(w1 + s + w2) == s
  {
    if s == [] {
      assert w1 + s + w2 == (w1 + w2) + s;
      LStripPrefix(w1 + w2, s, Whitespace);
    } else {
      assert w1 + s + w2 == w1 + (s + w2);
      LStripPrefix(w1, s + w2, Whitespace);
      RStripSuffix(s, w2, Whitespace);
    }
  }

  /** What `strip()` returns has no whitespace at either end. */
  lemma StripTrimmed(s: string)
    ensures Trimmed(Strip(s))
  {
    var l := LStripSet(s, Whitespace);
    var r := RStripSet(l, Whitespace);
    if r != [] {
      assert r[0] == l[0];
    }
  }

  /** Stripping never removes a character outside the stripped set. */
  lemma StripSetKeeps(s: string, cs: set<char>, c: char)
    requires c in s && c !in cs
    ensures c in StripSet(s, cs)
  {
    var i :| 0 <= i < |s| && s[i] == c;
    var l := LStripSet(s, cs);
    var d := |s| - |l|;
    assert i >= d;
    assert l[i - d] == c;
    var r := RStripSet(l, cs);
    assert i - d < |r|;
    assert r[i - d] == c;
  }

  /** Python `s.split(sep)` for a one-character separator. */
  function Split(s: string, sep: char): (r: seq<string>)
    ensures |r| >= 1
    ensures forall i :: 0 <= i < |r| ==> sep !in r[i]
  {
    if s == [] then [""]
    else if s[0] == sep then [""] + Split(s[1..], sep)
    else
      var rest := Split(s[1..], sep);
      [[s[0]] + rest[0]] + rest[1..]
  }

  /** Joining the parts of a split with the separator gives the string back. */
  lemma {:induction false} JoinSplit(s: string, sep: char)
    ensures Join(Split(s, sep), [sep]) == s
    decreases |s|
  {
    if s != [] {
      JoinSplit(s[1..], sep);
      assert [s[0]] + s[1..] == s;
      if s[0] != sep {
        JoinCons(s[0], Split(s[1..], sep), [sep]);
      }
    }
  }

  /** Python `sep.join(parts)`. */
  function Join(parts: seq<string>, sep: string): string {
    if |parts| == 0 then ""
    else if |parts| == 1 then parts[0]
    else parts[0] + sep + Join(parts[1..], sep)
  }

  /** Python `"".join(parts)`. */
  function Concat(parts: seq<string>): string {
    if parts == [] then "" else parts[0] + Concat(parts[1..])
  }

  /** `"".join` distributes over concatenation of the part lists. */
  lemma {:induction false} ConcatAppend(a: seq<string>, b: seq<string>)
    ensures Concat(a + b) == Concat(a) + Concat(b)
    decreases |a|
  {
    if a == [] {
      assert a + b == b;
    } else {
      assert (a + b)[1..] == a[1..] + b;
      ConcatAppend(a[1..], b);
    }
  }

  lemma JoinCons(c: char, parts: seq<string>, sep: string)
    requires |parts| >= 1
    ensures Join([[c] + parts[0]] + parts[1..], sep) == [c] + Join(parts, sep)
  {
    var q := [[c] + parts[0]] + parts[1..];
    if |parts| > 1 {
      assert q[1..] == parts[1..];
    }
  }

  /** Joining with a one-character separator and splitting on it again gives the parts back. */
  lemma {:induction false} SplitJoin(parts: seq<string>, sep: char)
    requires |parts| >= 1
    requires forall i :: 0 <= i < |parts| ==> sep !in parts[i]
    ensures Split(Join(parts, [sep]), sep) == parts
    decreases |parts|, |parts[0]|
  {
    var p := parts[0];
    if |parts| == 1 {
      SplitNoSep(p, sep);
    } else if p == [] {
      var j := Join(parts, [sep]);
      assert j == [sep] + Join(parts[1..], [sep]);
      assert j[1..] == Join(parts[1..], [sep]);
      SplitJoin(parts[1..], sep);
      assert [""] + parts[1..] == parts;
    } else {
      var tail := [p[1..]] + parts[1..];
      assert tail[1..] == parts[1..];
      var j := Join(parts, [sep]);
      assert j == [p[0]] + Join(tail, [sep]) by {
        assert p == [p[0]] + p[1..];
      }
      assert j[1..] == Join(tail, [sep]);
      SplitJoin(tail, sep);
      assert [[p[0]] + tail[0]] + tail[1..] == parts;
    }
  }

  /** A string without the separator splits into itself alone. */
  lemma {:induction false} SplitNoSep(s: string, sep: char)
    requires sep !in s
    ensures Split(s, sep) == [s]
    decreases |s|
  {
    if s != [] {
      SplitNoSep(s[1..], sep);
      assert [s[0]] + s[1..] == s;
    }
  }

  /** Splitting around one separator occurrence splits each side independently. */
  lemma {:induction false} SplitAppend(a: string, b: string, sep: char)
    ensures Split(a + [sep] + b, sep) == Split(a, sep) + Split(b, sep)
    decreases |a|
  {
    if a == [] {
      assert a + [sep] + b == [sep] + b;
      SplitCons(sep, b, sep);
    } else {
      var c, a' := a[0], a[1..];
      assert a == [c] + a';
      assert a + [sep] + b == [c] + (a' + [sep] + b);
      SplitAppend(a', b, sep);
      SplitAppendStep(c, a', b, sep);
    }
  }

  lemma SplitAppendStep(c: char, a: string, b: string, sep: char)
    requires Split(a + [sep] + b, sep) == Split(a, sep) + Split(b, sep)
    ensures Split([c] + (a + [sep] + b), sep) == Split([c] + a, sep) + Split(b, sep)
  {
    SplitCons(c, a, sep);
    SplitCons(c, a + [sep] + b, sep);
    if c != sep {
      ConsFirst(c, Split(a, sep), Split(b, sep));
    } else {
      ConsEmpty(Split(a, sep), Split(b, sep));
    }
  }

  lemma ConsFirst(c: char, x: seq<string>, y: seq<string>)
    requires |x| >= 1
    ensures [[c] + (x + y)[0]] + (x + y)[1..] == ([[c] + x[0]] + x[1..]) + y
  {
    assert (x + y)[0] == x[0];
    assert (x + y)[1..] == x[1..] + y;
  }

  lemma ConsEmpty(x: seq<string>, y: seq<string>)
    ensures [""] + (x + y) == ([""] + x) + y
  {
  }

  /** One more character in front: a separator opens a new empty first part, anything else joins the first part. */
  lemma SplitCons(c: char, s: string, sep: char)
    ensures Split([c] + s, sep) ==
      if c == sep then [""] + Split(s, sep) else [[c] + Split(s, sep)[0]] + Split(s, sep)[1..]
  {
    assert ([c] + s)[0] == c;
    assert ([c] + s)[1..] == s;
  }

  /** Position of the first `c` in `s`. */
  function IndexOfChar(s: string, c: char): (k: nat)
    requires c in s
    ensures k < |s| && s[k] == c && c !in s[..k]
  {
    if s[0] == c then 0 else 1 + IndexOfChar(s[1..], c)
  }

  /** Python `s.split(c, 1)` when `c` occurs in `s`: the text before and after the first `c`. */
  function SplitOnceChar(s: string, c: char): (r: (string, string))
    requires c in s
    ensures s == r.0 + [c] + r.1 && c !in r.0
  {
    var k := IndexOfChar(s, c);
    assert s == s[..k] + [c] + s[k + 1..];
    (s[..k], s[k + 1..])
  }

  /** Cutting at the first `c` finds the very `c` that follows a `c`-free prefix. */
  lemma SplitOnceAt(a: string, b: string, c: char)
    requires c !in a
    ensures SplitOnceChar(a + [c] + b, c) == (a, b)
  {
    var s := a + [c] + b;
    var k := IndexOfChar(s, c);
    assert s[|a|] == c;
    assert forall i :: 0 <= i < |a| ==> s[i] == a[i];
    assert k == |a|;
    assert s[..k] == a && s[k + 1..] == b;
  }

  /** Python `s.split(p, 1)[1]` when `p` occurs in `s`: the text after its first occurrence. */
  function AfterFirst(s: string, p: string): (r: string)
    requires Contains(s, p)
    ensures exists k: nat :: OccursAt(s, p, k) && (forall j: nat :: j < k ==> !OccursAt(s, p, j)) && r == s[k + |p|..]
  {
    var k := Find(s, p).value;
    s[k + |p|..]
  }

  /** Python `s.replace(pat, rep)`: every non-overlapping occurrence, left to right. */
  function Replace(s: string, pat: string, rep: string): (r: string)
    requires pat != []
    ensures |pat| == 1 && pat[0] !in rep ==> pat[0] !in r
    ensures forall c :: c in r ==> c in s || c in rep
    decreases |s|
  {
    if |s| < |pat| then s
    else if s[..|pat|] == pat then rep + Replace(s[|pat|..], pat, rep)
    else [s[0]] + Replace(s[1..], pat, rep)
  }

  /** A prefix that cannot start the pattern passes through `replace` untouched. */
  lemma {:induction false} ReplacePlainPrefix(a: string, t: string, pat: string, rep: string)
    requires pat != [] && pat[0] !in a
    ensures Replace(a + t, pat, rep) == a + Replace(t, pat, rep)
    decreases |a|
  {
    if a == [] {
      assert a + t == t;
    } else {
      ReplacePlainPrefix(a[1..], t, pat, rep);
      ReplaceNoMatchHere(a + t, pat, rep);
      assert (a + t)[1..] == a[1..] + t;
      assert [a[0]] + (a[1..] + Replace(t, pat, rep)) == a + Replace(t, pat, rep);
    }
  }

  /** Where the pattern cannot start, `replace` keeps the first character and goes on with the rest. */
  lemma ReplaceNoMatchHere(s: string, pat: string, rep: string)
    requires pat != [] && s != [] && s[0] != pat[0]
    ensures Replace(s, pat, rep) == [s[0]] + Replace(s[1..], pat, rep)
  {
    if |s| >= |pat| {
      assert s[..|pat|][0] != pat[0];
    } else {
      assert |s[1..]| < |pat|;
    }
  }

  /** A string without the pattern's first character is its own `replace`. */
  lemma ReplaceAbsent(s: string, pat: string, rep: string)
    requires pat != [] && pat[0] !in s
    ensures Replace(s, pat, rep) == s
  {
    assert s + [] == s;
    ReplacePlainPrefix(s, [], pat, rep);
  }

  /** An occurrence at the start is replaced, and the scan goes on after it. */
  lemma ReplaceAtStart(pat: string, b: string, rep: string)
    requires pat != []
    ensures Replace(pat + b, pat, rep) == rep + Replace(b, pat, rep)
  {
    assert (pat + b)[..|pat|] == pat;
    assert (pat + b)[|pat|..] == b;
  }

  /** Python `c.lower()` restricted to ASCII letters. */
  function LowerChar(c: char): char {
    if 'A' <= c <= 'Z' then (c as int + 32) as char else c
  }

  /** Python `s.lower()` restricted to ASCII letters. */
  function Lower(s: string): (r: string)
    ensures |r| == |s| && forall i :: 0 <= i < |s| ==> r[i] == LowerChar(s[i])
  {
    seq(|s|, i requires 0 <= i < |s| => LowerChar(s[i]))
  }

  function Digit(d: nat): char
    requires d < 10
  {
    "0123456789"[d]
  }

  /** Python `str(n)` for a natural number. */
  function NatToString(n: nat): (r: string)
    ensures |r| >= 1
    ensures forall i :: 0 <= i < |r| ==> '0' <= r[i] <= '9'
  {
    if n < 10 then [Digit(n)] else NatToString(n / 10) + [Digit(n % 10)]
  }

  /** Python `str(n)` for any integer. */
  function IntToString(n: int): string {
    if n < 0 then "-" + NatToString(-n) else NatToString(n)
  }

  /** The index of the first line boundary in `s`, or `|s|` when there is none. */
  function LineEnd(s: string): (k: nat)
    ensures k <= |s|
    ensures forall i :: 0 <= i < k ==> s[i] !in LineBreaks
    ensures k < |s| ==> s[k] in LineBreaks
  {
    if s == [] || s[0] in LineBreaks then 0 else 1 + LineEnd(s[1..])
  }

  /** Python `s.splitlines()`: lines without their terminators; a trailing terminator adds no empty line. */
  function SplitLines(s: string): (r: seq<string>)
    ensures forall i, j :: 0 <= i < |r| && 0 <= j < |r[i]| ==> r[i][j] !in LineBreaks
    decreases |s|
  {
    if s == [] then []
    else
      var k := LineEnd(s);
      var rest :=
        if k == |s| then ""
        else if s[k] == '\r' && k + 1 < |s| && s[k + 1] == '\n' then s[k + 2..]
        else s[k + 1..];
      [s[..k]] + SplitLines(rest)
  }

  /** The index of the first element of `xs` that satisfies `q`. */
  function FirstWhere(q: string -> bool, xs: seq<string>): (r: Option<nat>)
    ensures r.Some? ==> r.value < |xs| && q(xs[r.value])
    ensures r.Some? ==> forall j :: 0 <= j < r.value ==> !q(xs[j])
    ensures r.None? ==> forall j :: 0 <= j < |xs| ==> !q(xs[j])
  {
    if xs == [] then None
    else if q(xs[0]) then Some(0)
    else
      var r := FirstWhere(q, xs[1..]);
      assert forall j :: 1 <= j < |xs| ==> xs[j] == xs[1..][j - 1];
      match r
      case None => None
      case Some(k) => Some(k + 1)
  }

  /** A prefix one longer is the shorter prefix and the next element. */
  lemma Snoc<T>(s: seq<T>, i: nat)
    requires i < |s|
    ensures s[..i + 1] == s[..i] + [s[i]]
  {
  }
}
