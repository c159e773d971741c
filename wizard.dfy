/**
 * The credential extraction of the configuration wizard: a pasted HAR/JSON
 * document, PowerShell script or raw header is searched for the Perplexity
 * cookie and user agent, the result is cleaned and kept, and `.env` is
 * rewritten with it.
 */
module Wizard {
  import opened Wrappers
  import opened Text
  import opened Dicts
  import opened Json
  import opened Cookies
  import opened EnvFile

  const VisitorId: string := "pplx.visitor-id"

  /** The user agent written when none was extracted. */
  const DefaultUa: string :=
    "Mozilla/5.0 (Windows NT 10.0; Win64; x64) AppleWebKit/537.36 (KHTML, like Gecko) Chrome/143.0.7499.147 Safari/537.36"

  /** What the walk appends to `candidates` and `ua_candidates`, in traversal order. */
  datatype Found = Found(cookies: seq<string>, agents: seq<string>)

  function Plus(a: Found, b: Found): Found {
    Found(a.cookies + b.cookies, a.agents + b.agents)
  }

  const Nothing: Found := Found([], [])

  lemma PlusAssoc(a: Found, b: Found, c: Found)
    ensures Plus(Plus(a, b), c) == Plus(a, Plus(b, c))
  {
    assert a.cookies + b.cookies + c.cookies == a.cookies + (b.cookies + c.cookies);
    assert a.agents + b.agents + c.agents == a.agents + (b.agents + c.agents);
  }

  /** A string value under key `k` is a cookie candidate: the key names a cookie, the value the visitor id. */
  predicate CookieKeyed(k: string, v: string) {
    Contains(Lower(k), "cookie") && Contains(v, VisitorId)
  }

  /** A string value under key `k` is a user-agent candidate. */
  predicate AgentKeyed(k: string) {
    Contains(Lower(k), "user-agent")
  }

  /**
   * `walk(obj)`: dictionaries and lists are descended, a string value is
   * looked at only as the value of a dictionary key, and nothing else counts.
   */
  function Walk(obj: Json): (r: Found)
    ensures forall i :: 0 <= i < |r.cookies| ==> Contains(r.cookies[i], VisitorId)
    decreases obj, 1
  {
    match obj
    case JObj(m) => WalkMembers(m, obj)
    case JArr(items) => WalkItems(items, obj)
    case _ => Nothing
  }

  /** The body of `for k, v in obj.items()`. */
  function WalkMember(k: string, v: Json, parent: Json): (r: Found)
    requires v < parent
    ensures forall i :: 0 <= i < |r.cookies| ==> Contains(r.cookies[i], VisitorId)
    decreases parent, 0, 0
  {
    match v
    case JStr(s) =>
      Found(if CookieKeyed(k, s) then [s] else [], if AgentKeyed(k) then [s] else [])
    case JObj(_) => Walk(v)
    case JArr(_) => Walk(v)
    case _ => Nothing
  }

  function WalkMembers(m: Dict<Json>, parent: Json): (r: Found)
    requires forall i :: 0 <= i < |m| ==> m[i].1 < parent
    ensures forall i :: 0 <= i < |r.cookies| ==> Contains(r.cookies[i], VisitorId)
    decreases parent, 0, |m|
  {
    if m == [] then Nothing
    else Plus(WalkMember(m[0].0, m[0].1, parent), WalkMembers(m[1..], parent))
  }

  function WalkItems(items: seq<Json>, parent: Json): (r: Found)
    requires forall i :: 0 <= i < |items| ==> items[i] < parent
    ensures forall i :: 0 <= i < |r.cookies| ==> Contains(r.cookies[i], VisitorId)
    decreases parent, 0, |items|
  {
    if items == [] then Nothing
    else Plus(Walk(items[0]), WalkItems(items[1..], parent))
  }

  /**
   * The longest candidate, the earliest among equally long ones (`best_cookie`
   * starts at `""` and is replaced only by a strictly longer string).
   */
  function Longest(cs: seq<string>): (r: string)
    ensures forall j :: 0 <= j < |cs| ==> |cs[j]| <= |r|
    ensures r == "" || exists k :: 0 <= k < |cs| && cs[k] == r && forall j :: 0 <= j < k ==> |cs[j]| < |r|
  {
    if cs == [] then ""
    else
      var best := Longest(cs[..|cs| - 1]);
      var c := cs[|cs| - 1];
      if |c| > |best| then c else best
  }

  /** The loop of `extract_from_json` choosing the cookie, with `best_cookie or None`. */
  method BestCookie(candidates: seq<string>) returns (best: Option<string>)
    ensures best == if Longest(candidates) == "" then None else Some(Longest(candidates))
  {
    var bestCookie := "";
    for i := 0 to |candidates|
      invariant bestCookie == Longest(candidates[..i])
    {
      assert candidates[..i + 1][..i] == candidates[..i];
      if |candidates[i]| > |bestCookie| {
        bestCookie := candidates[i];
      }
    }
    assert candidates[..|candidates|] == candidates;
    best := if bestCookie == "" then None else Some(bestCookie);
  }

  /** `extract_from_json`, as a value: the chosen cookie and the first user agent. */
  function JsonCredentials(data: Json): (Option<string>, Option<string>) {
    var found := Walk(data);
    var best := Longest(found.cookies);
    (if best == "" then None else Some(best), if found.agents == [] then None else Some(found.agents[0]))
  }

  /** `extract_from_json`. */
  method ExtractFromJson(data: Json) returns (cookie: Option<string>, ua: Option<string>)
    ensures (cookie, ua) == JsonCredentials(data)
  {
    var found := Walk(data);
    cookie := BestCookie(found.cookies);
    ua := if found.agents != [] then Some(found.agents[0]) else None;
  }

  /** A line `extract_from_regex` returns from: it qualifies and yields a cookie. */
  predicate Yields(line: string) {
    Qualifies(line) && LineCookie(line).Some?
  }

  /** `extract_from_regex` over the lines of the text: the first qualifying line that yields a cookie. */
  function RegexScan(lines: seq<string>): (r: Option<string>)
    ensures r.None? <==> forall i :: 0 <= i < |lines| ==> !Yields(lines[i])
    ensures r.Some? ==>
      exists i :: 0 <= i < |lines| && Yields(lines[i]) && r == LineCookie(lines[i]) &&
        forall j :: 0 <= j < i ==> !Yields(lines[j])
  {
    match FirstWhere(Yields, lines)
    case None => None
    case Some(i) => LineCookie(lines[i])
  }

  function ExtractFromRegex(text: string): Option<string> {
    RegexScan(SplitLines(text))
  }

  /**
   * `extract_from_powershell` once the `System.Net.Cookie("KEY", "VALUE"`
   * matches are found: no match gives `(None, None)`, otherwise the pairs
   * joined into one header and the user agent the regex found.
   */
  function PowershellCredentials(matches: seq<(string, string)>, uaFound: Option<string>): (r: (Option<string>, Option<string>))
    ensures matches == [] <==> r == (None, None)
    ensures matches != [] ==> r == (Some(CookieString(matches)), uaFound)
  {
    if matches == [] then (None, None) else (Some(CookieString(matches)), uaFound)
  }

  /** Python truthiness of an optional string. */
  predicate HasText(s: Option<string>) {
    s.Some? && s.value != ""
  }

  /**
   * The sources `process_text_content` tries in turn: JSON, then PowerShell
   * (whose result replaces the user agent too), then the line scan; a
   * missing user agent is then taken from the user-agent regex.
   */
  function Extract(content: string, parse: Parser, matches: seq<(string, string)>, uaFound: Option<string>): (Option<string>, Option<string>) {
    var j := JsonStage(content, parse);
    var p := if HasText(j.0) then j else PowershellCredentials(matches, uaFound);
    (if HasText(p.0) then p.0 else ExtractFromRegex(content), if HasText(p.1) then p.1 else uaFound)
  }

  /**
   * The stage order of `process_text_content`. A cookie from the JSON stage
   * wins together with the JSON user agent (or the regex one when that is
   * missing). Otherwise any PowerShell match gives the joined header, and
   * with no match the line scan decides. Whenever the JSON stage finds no
   * cookie, its user agent is dropped and the user-agent regex's is used.
   */
  lemma ExtractStageOrder(content: string, parse: Parser, matches: seq<(string, string)>, uaFound: Option<string>)
    ensures var j := JsonStage(content, parse);
      HasText(j.0) ==> Extract(content, parse, matches, uaFound) == (j.0, if HasText(j.1) then j.1 else uaFound)
    ensures !HasText(JsonStage(content, parse).0) && matches != [] ==>
      Extract(content, parse, matches, uaFound).0 == Some(CookieString(matches))
    ensures !HasText(JsonStage(content, parse).0) && matches == [] ==>
      Extract(content, parse, matches, uaFound).0 == ExtractFromRegex(content)
    ensures !HasText(JsonStage(content, parse).0) ==> Extract(content, parse, matches, uaFound).1 == uaFound
  {
    if matches != [] {
      CookieStringNonEmpty(matches);
    }
  }

  /** The first stage: the text read as JSON, if `json.loads` accepts it. */
  function JsonStage(content: string, parse: Parser): (Option<string>, Option<string>) {
    match parse(content)
    case Some(data) => JsonCredentials(data)
    case None => (None, None)
  }

  /** `s.strip().strip('"').strip("'")`. */
  function Clean(s: string): string {
    StripSet(StripSet(Strip(s), {'"'}), {'\''})
  }

  /** A cleaned value neither opens nor closes with a single quote. */
  lemma CleanEnds(s: string)
    ensures var r := Clean(s); r == [] || (r[0] != '\'' && r[|r| - 1] != '\'')
  {
    var b := StripSet(Strip(s), {'"'});
    StripSetEnds(b, {'\''});
    CleanSteps(s, Strip(s), b, StripSet(b, {'\''}));
  }

  /** `Clean` is its three strips in turn. */
  lemma CleanSteps(s: string, a: string, b: string, c: string)
    requires Strip(s) == a && StripSet(a, {'"'}) == b && StripSet(b, {'\''}) == c
    ensures Clean(s) == c
  {
  }

  /** Candidates from consecutive members are appended in member order. */
  lemma {:induction false} WalkMembersAppend(a: Dict<Json>, b: Dict<Json>, parent: Json)
    requires forall i :: 0 <= i < |a| ==> a[i].1 < parent
    requires forall i :: 0 <= i < |b| ==> b[i].1 < parent
    ensures WalkMembers(a + b, parent) == Plus(WalkMembers(a, parent), WalkMembers(b, parent))
    decreases |a|
  {
    if a == [] {
      assert a + b == b;
    } else {
      assert (a + b)[0] == a[0];
      assert (a + b)[1..] == a[1..] + b;
      WalkMembersAppend(a[1..], b, parent);
      PlusAssoc(WalkMember(a[0].0, a[0].1, parent), WalkMembers(a[1..], parent), WalkMembers(b, parent));
    }
  }

  /** Candidates from consecutive list items are appended in item order. */
  lemma {:induction false} WalkItemsAppend(a: seq<Json>, b: seq<Json>, parent: Json)
    requires forall i :: 0 <= i < |a| ==> a[i] < parent
    requires forall i :: 0 <= i < |b| ==> b[i] < parent
    ensures WalkItems(a + b, parent) == Plus(WalkItems(a, parent), WalkItems(b, parent))
    decreases |a|
  {
    if a == [] {
      assert a + b == b;
    } else {
      assert (a + b)[0] == a[0];
      assert (a + b)[1..] == a[1..] + b;
      WalkItemsAppend(a[1..], b, parent);
      PlusAssoc(Walk(a[0]), WalkItems(a[1..], parent), WalkItems(b, parent));
    }
  }

  /** The walk does not look inside strings: a list of strings yields nothing, whatever they hold. */
  lemma {:induction false} StringItemsIgnored(items: seq<Json>, parent: Json)
    requires forall i :: 0 <= i < |items| ==> items[i] < parent && items[i].JStr?
    ensures WalkItems(items, parent) == Nothing
    decreases |items|
  {
    if items != [] {
      StringItemsIgnored(items[1..], parent);
    }
  }

  /** A string under a cookie-named key that holds the visitor id is a candidate; a user-agent key makes it a user agent. */
  lemma MemberCandidate(k: string, v: string)
    ensures Walk(JObj([(k, JStr(v))])).cookies == if CookieKeyed(k, v) then [v] else []
    ensures Walk(JObj([(k, JStr(v))])).agents == if AgentKeyed(k) then [v] else []
  {
    var obj := JObj([(k, JStr(v))]);
    assert [(k, JStr(v))][1..] == [];
    assert WalkMembers([(k, JStr(v))], obj) == Plus(WalkMember(k, JStr(v), obj), Nothing);
  }

  /** The JSON stage finds a cookie exactly when the walk found a candidate. */
  lemma JsonCookieFound(data: Json)
    ensures JsonCredentials(data).0.Some? <==> Walk(data).cookies != []
    ensures JsonCredentials(data).0.Some? ==> JsonCredentials(data).0.value in Walk(data).cookies
  {
    var cs := Walk(data).cookies;
    if cs != [] {
      assert Contains(cs[0], VisitorId);
      assert |cs[0]| > 0;
    }
  }

  lemma CleanUnquotesStep(t: string)
    requires t != "" && t[0] !in {'"', '\''} && t[|t| - 1] !in {'"', '\''}
    ensures StripSet("\"" + t + "\"", {'"'}) == t
  {
    assert "\"" + t + "\"" == "\"" + (t + "\"");
    LStripPrefix("\"", t + "\"", {'"'});
    RStripSuffix(t, "\"", {'"'});
  }

  /** Whitespace, then one pair of double quotes, come off a cleaned value. */
  lemma CleanUnquotes(w1: string, t: string, w2: string)
    requires forall i :: 0 <= i < |w1| ==> w1[i] in Whitespace
    requires forall i :: 0 <= i < |w2| ==> w2[i] in Whitespace
    requires t != "" && t[0] !in {'"', '\''} && t[|t| - 1] !in {'"', '\''}
    ensures Clean(w1 + ("\"" + t + "\"") + w2) == t
  {
    QuotedCore(t);
    CleanPadded(w1, "\"" + t + "\"", w2, t);
  }

  /** A double-quoted core: trimmed, the double quotes strip to `t`, and `t` has no single quotes to strip. */
  lemma QuotedCore(t: string)
    requires t != "" && t[0] !in {'"', '\''} && t[|t| - 1] !in {'"', '\''}
    ensures var q := "\"" + t + "\""; Trimmed(q) && StripSet(q, {'"'}) == t && StripSet(t, {'\''}) == t
  {
    CleanUnquotesStep(t);
    StripSetNoop(t, {'\''});
  }

  /** A trimmed core between whitespace, whose quote strips give `t`, cleans to `t`. */
  lemma CleanPadded(w1: string, q: string, w2: string, t: string)
    requires forall i :: 0 <= i < |w1| ==> w1[i] in Whitespace
    requires forall i :: 0 <= i < |w2| ==> w2[i] in Whitespace
    requires Trimmed(q) && StripSet(q, {'"'}) == t && StripSet(t, {'\''}) == t
    ensures Clean(w1 + q + w2) == t
  {
    StripPadded(w1, q, w2);
    CleanSteps(w1 + q + w2, q, t, t);
  }

  /** Double quotes are stripped before single quotes, so double quotes inside single ones stay. */
  lemma CleanQuoteOrder(t: string)
    requires t != "" && t[0] !in {'"', '\''} && t[|t| - 1] !in {'"', '\''}
    ensures Clean("'\"" + t + "\"'") == "\"" + t + "\""
  {
    var q := "\"" + t + "\"";
    assert "'\"" + t + "\"'" == "'" + q + "'";
    SingleQuotedStripped(q);
    SingleQuotedKeepsDouble(q);
    SingleQuoted(q);
    CleanSteps("'" + q + "'", "'" + q + "'", "'" + q + "'", q);
  }

  /** Around a double-quoted value in single quotes, `strip()` does nothing. */
  lemma SingleQuotedStripped(q: string)
    requires q != [] && q[0] == '"' && q[|q| - 1] == '"'
    ensures Strip("'" + q + "'") == "'" + q + "'"
  {
    var s := "'" + q + "'";
    assert s[0] == '\'' && s[|s| - 1] == '\'';
    StripSetNoop(s, Whitespace);
  }

  /** Around a double-quoted value in single quotes, `strip('"')` does nothing. */
  lemma SingleQuotedKeepsDouble(q: string)
    requires q != [] && q[0] == '"' && q[|q| - 1] == '"'
    ensures StripSet("'" + q + "'", {'"'}) == "'" + q + "'"
  {
    var s := "'" + q + "'";
    assert s[0] == '\'' && s[|s| - 1] == '\'';
    StripSetNoop(s, {'"'});
  }

  /** One pair of single quotes around a double-quoted value comes off. */
  lemma SingleQuoted(q: string)
    requires q != [] && q[0] == '"' && q[|q| - 1] == '"'
    ensures StripSet("'" + q + "'", {'\''}) == q
  {
    assert "'" + q + "'" == "'" + (q + "'");
    LStripPrefix("'", q + "'", {'\''});
    RStripSuffix(q, "'", {'\''});
  }

  /** The extraction steps of `process_text_content`, in the order it tries them. */
  method ExtractCredentials(content: string, parse: Parser, matches: seq<(string, string)>, uaFound: Option<string>)
    returns (cookie: Option<string>, ua: Option<string>)
    ensures (cookie, ua) == Extract(content, parse, matches, uaFound)
  {
    cookie, ua := None, None;
    var data := parse(content);
    if data.Some? {
      cookie, ua := ExtractFromJson(data.value);
    }
    assert (cookie, ua) == JsonStage(content, parse);
    if !HasText(cookie) {
      var p := PowershellCredentials(matches, uaFound);
      cookie, ua := p.0, p.1;
    }
    if !HasText(cookie) {
      cookie := ExtractFromRegex(content);
    }
    if !HasText(ua) {
      ua := uaFound;
    }
  }

  /** The wizard's state between extraction and writing. */
  class ConfigWizard {
    var extractedCookie: Option<string>
    var extractedUa: Option<string>

    constructor()
      ensures extractedCookie == None && extractedUa == None
    {
      extractedCookie := None;
      extractedUa := None;
    }

    /**
     * `process_text_content` without its dialogs: `parse` is `json.loads`,
     * `matches` the PowerShell cookie matches and `uaFound` what the
     * user-agent regex finds in the same text.
     */
    method ProcessTextContent(content: string, parse: Parser, matches: seq<(string, string)>, uaFound: Option<string>)
      modifies this
      ensures var (cookie, ua) := Extract(content, parse, matches, uaFound);
        if HasText(cookie) then
          extractedCookie == Some(Clean(cookie.value)) &&
          extractedUa == Some(Clean(if HasText(ua) then ua.value else ""))
        else
          extractedCookie == old(extractedCookie) && extractedUa == old(extractedUa)
    {
      var cookie, ua := ExtractCredentials(content, parse, matches, uaFound);
      if HasText(cookie) {
        extractedCookie := Some(Clean(cookie.value));
        extractedUa := Some(Clean(if HasText(ua) then ua.value else ""));
      }
    }

    /**
     * The line rewrite of `write_to_env`: None when nothing was extracted
     * (the file is left alone), otherwise the new lines for `lines`, the
     * file as read (empty when it does not exist).
     */
    method WriteToEnv(lines: seq<string>) returns (written: Option<seq<string>>)
      ensures !HasText(extractedCookie) ==> written == None
      ensures HasText(extractedCookie) ==>
        written == Some(Rewrite(lines, extractedCookie.value, Some(if HasText(extractedUa) then extractedUa.value else DefaultUa)))
    {
      if !HasText(extractedCookie) {
        return None;
      }
      var cookie := extractedCookie.value;
      var ua := if HasText(extractedUa) then extractedUa.value else DefaultUa;
      var newLines := RewriteLines(lines, cookie, Some(ua));
      written := Some(newLines);
    }
  }
}
