/**
 * The envelope decoder inside `stream_generator`: one parsed upstream event
 * becomes the cumulative text snapshot it carries. The event holds its text
 * under `answer` (checked first) or `text`; the value is a string that is a
 * JSON array of steps, a JSON object, or plain text. Every Python exception
 * raised while decoding the value degrades to the raw value itself.
 */
module Envelope {
  import opened Wrappers
  import opened Text
  import opened Dicts
  import opened Json

  /** Which top-level key the raw value came from; the two keys decode steps differently. */
  datatype Field = AnswerField | TextField

  /** A step of an array-shaped value, classified by `step_type`, with its `content` (default `{}`). */
  datatype Step =
    | SearchWeb(content: Json)
    | SearchResults(content: Json)
    | Final(content: Json)
    | OtherStep

  /** What decoding an object-shaped value yields: text, a raised exception, or a non-string value. */
  datatype Piece = Text(s: string) | Raised | NonText

  const SearchingPrefix: string := "> \U{1F50D} Searching: "
  const FoundPrefix: string := "> \U{1F4DA} Found "
  const SourcesSuffix: string := " sources\n\n"

  /** `step.get("step_type")` and `step.get("content", {})`; anything but a dict raises. */
  function ClassifyStep(step: Json): (r: Option<Step>)
    ensures r.None? <==> !step.JObj?
    ensures step.JObj? && Get(step.members, "step_type") == Some(JStr("FINAL")) ==>
      r == Some(Final(Get(step.members, "content").GetOr(JObj([]))))
  {
    match step
    case JObj(m) =>
      var ty := Get(m, "step_type");
      var content := Get(m, "content").GetOr(JObj([]));
      Some(if ty == Some(JStr("SEARCH_WEB")) then SearchWeb(content)
           else if ty == Some(JStr("SEARCH_RESULTS")) then SearchResults(content)
           else if ty == Some(JStr("FINAL")) then Final(content)
           else OtherStep)
    case _ => None
  }

  /** `q["query"]` succeeds and is a string. */
  predicate IsQuery(q: Json) {
    PyIndex(q, "query").Some? && PyIndex(q, "query").value.JStr?
  }

  /** The list `[q["query"] for q in queries]`, when every element is a query object with a string. */
  function QueryStrings(qs: seq<Json>): (r: Option<seq<string>>)
    ensures r.Some? <==> forall i :: 0 <= i < |qs| ==> IsQuery(qs[i])
    ensures r.Some? ==> |r.value| == |qs|
    ensures r.Some? ==> forall i :: 0 <= i < |qs| ==> PyIndex(qs[i], "query") == Some(JStr(r.value[i]))
  {
    if qs == [] then Some([])
    else match PyIndex(qs[0], "query")
      case Some(JStr(q)) =>
        (match QueryStrings(qs[1..])
         case Some(rest) => Some([q] + rest)
         case None => None)
      case _ => None
  }

  /** Every element is a string: what `"".join(chunks)` needs. */
  function AllStrings(cs: seq<Json>): (r: Option<seq<string>>)
    ensures r.Some? <==> forall i :: 0 <= i < |cs| ==> cs[i].JStr?
    ensures r.Some? ==> |r.value| == |cs|
    ensures r.Some? ==> forall i :: 0 <= i < |cs| ==> cs[i] == JStr(r.value[i])
  {
    if cs == [] then Some([])
    else if !cs[0].JStr? then None
    else match AllStrings(cs[1..])
      case Some(rest) => Some([cs[0].s] + rest)
      case None => None
  }

  /**
   * A FINAL step's string `content.answer`: the `answer` inside it when it parses to
   * something holding a string `answer`, nothing when it parses to something without one,
   * and the raw string whenever parsing or the lookup raises.
   */
  function NestedAnswer(raw: string, parse: Parser): string {
    match parse(raw)
    case None => raw
    case Some(obj) =>
      match PyIn("answer", obj)
      case None => raw
      case Some(false) => ""
      case Some(true) =>
        match PyIndex(obj, "answer")
        case Some(JStr(a)) => a
        case _ => raw
  }

  /** The text one step adds under `answer`; None when Python raises. */
  function AnswerStepText(step: Step, parse: Parser): Option<string> {
    match step
    case SearchWeb(content) =>
      (match PyGet(content, "queries", JArr([]))
       case None => None
       case Some(queries) =>
         match PyIter(queries)
         case None => None
         case Some(qs) =>
           match QueryStrings(qs)
           case None => None
           case Some(names) => Some(SearchingPrefix + Join(names, ", ") + "\n\n"))
    case SearchResults(content) =>
      (match PyGet(content, "web_results", JArr([]))
       case None => None
       case Some(results) =>
         if !Truthy(results) then Some("")
         else match PyLen(results)
           case None => None
           case Some(n) => Some(FoundPrefix + NatToString(n) + SourcesSuffix))
    case Final(content) =>
      (match PyGet(content, "answer", JNull)
       case None => None
       case Some(JStr(raw)) => Some(NestedAnswer(raw, parse))
       case Some(v) => Some(PyStr(v)))
    case OtherStep => Some("")
  }

  /** The text one step adds under `text`: only FINAL steps with a string answer contribute. */
  function TextStepText(step: Step, parse: Parser): Option<string> {
    match step
    case Final(content) =>
      (match PyGet(content, "answer", JNull)
       case None => None
       case Some(JStr(raw)) => Some(NestedAnswer(raw, parse))
       case Some(_) => Some(""))
    case _ => Some("")
  }

  /** One raw step's contribution on the given path; None when Python raises. */
  function StepText(step: Json, field: Field, parse: Parser): Option<string> {
    match ClassifyStep(step)
    case None => None
    case Some(st) => if field == AnswerField then AnswerStepText(st, parse) else TextStepText(st, parse)
  }

  /** The contributions of `steps`, concatenated in order; None as soon as one step raises. */
  function StepsText(steps: seq<Json>, field: Field, parse: Parser): Option<string> {
    if steps == [] then Some("")
    else
      match StepsText(steps[..|steps| - 1], field, parse)
      case None => None
      case Some(prefix) =>
        match StepText(steps[|steps| - 1], field, parse)
        case None => None
        case Some(t) => Some(prefix + t)
  }

  /** The value of an object-shaped `{...}` string, after parsing. */
  function InnerPiece(inner: Json, field: Field): Piece {
    match PyIn("answer", inner)
    case None => Raised
    case Some(true) =>
      (match PyIndex(inner, "answer")
       case None => Raised
       case Some(JStr(a)) => Text(a)
       case Some(_) => NonText)
    case Some(false) =>
      if field == AnswerField then Text("")
      else match PyIn("chunks", inner)
        case None => Raised
        case Some(false) => Text("")
        case Some(true) =>
          match PyIndex(inner, "chunks")
          case None => Raised
          case Some(chunks) =>
            match PyIter(chunks)
            case None => Raised
            case Some(cs) =>
              match AllStrings(cs)
              case None => Raised
              case Some(ss) => Text(Concat(ss))
  }

  /** An array-shaped value: its steps' text, or `raw` when parsing, iteration or a step raises. */
  function DecodeArray(raw: string, field: Field, parse: Parser): string {
    match parse(raw)
    case None => raw
    case Some(steps) =>
      match PyIter(steps)
      case None => raw
      case Some(ss) => StepsText(ss, field, parse).GetOr(raw)
  }

  /** An object-shaped value: its inner text, `raw` when something raises, None for a non-string answer. */
  function DecodeObject(raw: string, field: Field, parse: Parser): (r: Option<string>)
    ensures r.None? <==> parse(raw).Some? && InnerPiece(parse(raw).value, field) == NonText
    ensures parse(raw).None? ==> r == Some(raw)
  {
    match parse(raw)
    case None => Some(raw)
    case Some(inner) =>
      match InnerPiece(inner, field)
      case Raised => Some(raw)
      case Text(s) => Some(s)
      case NonText => None
  }

  /**
   * The snapshot carried by the string value `raw` found under `field`:
   * a step array, an object, or the value verbatim. A raised exception
   * gives `raw`; None means the value decoded to something that is not a string.
   */
  function DecodeValue(raw: string, field: Field, parse: Parser): Option<string> {
    var t := Strip(raw);
    if StartsWith(t, "[") then Some(DecodeArray(raw, field, parse))
    else if StartsWith(t, "{") then DecodeObject(raw, field, parse)
    else Some(raw)
  }

  /**
   * The cumulative text snapshot of one parsed event. None: Python raised at the
   * top level (the line is skipped) or the value is not a string. Some(""): the
   * event carries no text.
   */
  function Snapshot(data: Json, parse: Parser): Option<string> {
    match PyIn("answer", data)
    case None => None
    case Some(true) =>
      (match PyIndex(data, "answer")
       case Some(JStr(raw)) => DecodeValue(raw, AnswerField, parse)
       case _ => None)
    case Some(false) =>
      match PyIn("text", data)
      case None => None
      case Some(true) =>
        (match PyIndex(data, "text")
         case Some(JStr(raw)) => DecodeValue(raw, TextField, parse)
         case _ => None)
      case Some(false) => Some("")
  }

  /** Once a step has raised, no longer prefix of the array recovers. */
  lemma {:induction false} StepsTextRaisedStays(steps: seq<Json>, n: nat, field: Field, parse: Parser)
    requires n <= |steps| && StepsText(steps[..n], field, parse).None?
    ensures StepsText(steps, field, parse).None?
    decreases |steps| - n
  {
    if n < |steps| {
      assert steps[..n + 1][..n] == steps[..n];
      StepsTextRaisedStays(steps, n + 1, field, parse);
    } else {
      assert steps[..n] == steps;
    }
  }

  /**
   * The `+=` loop over the steps: `current_full_text` grows by each step's text
   * in order; the first step that raises makes the whole value fall back.
   */
  method AccumulateSteps(steps: seq<Json>, field: Field, parse: Parser) returns (text: Option<string>)
    ensures text == StepsText(steps, field, parse)
  {
    var current := "";
    var i := 0;
    while i < |steps|
      invariant 0 <= i <= |steps|
      invariant StepsText(steps[..i], field, parse) == Some(current)
    {
      assert steps[..i + 1][..i] == steps[..i];
      var t := StepText(steps[i], field, parse);
      if t.None? {
        StepsTextRaisedStays(steps, i + 1, field, parse);
        return None;
      }
      current := current + t.value;
      i := i + 1;
    }
    assert steps[..i] == steps;
    return Some(current);
  }

  /** The decoder as the stream loop runs it, with the step loop written out. */
  method DecodeEvent(data: Json, parse: Parser) returns (snapshot: Option<string>)
    ensures snapshot == Snapshot(data, parse)
  {
    var field: Field;
    var raw: string;
    var inAnswer := PyIn("answer", data);
    if inAnswer.None? {
      return None;
    } else if inAnswer.value {
      var v := PyIndex(data, "answer");
      if !(v.Some? && v.value.JStr?) {
        return None;
      }
      field, raw := AnswerField, v.value.s;
    } else {
      var inText := PyIn("text", data);
      if inText.None? {
        return None;
      } else if !inText.value {
        return Some("");
      }
      var v := PyIndex(data, "text");
      if !(v.Some? && v.value.JStr?) {
        return None;
      }
      field, raw := TextField, v.value.s;
    }
    snapshot := DecodeRaw(raw, field, parse);
  }

  /** The shape test on the stripped value and the decoding it selects. */
  method DecodeRaw(raw: string, field: Field, parse: Parser) returns (snapshot: Option<string>)
    ensures snapshot == DecodeValue(raw, field, parse)
  {
    var t := Strip(raw);
    if StartsWith(t, "[") {
      ArrayShapedValue(raw, field, parse);
      var parsed := parse(raw);
      if parsed.None? || PyIter(parsed.value).None? {
        return Some(raw);
      }
      var acc := AccumulateSteps(PyIter(parsed.value).value, field, parse);
      snapshot := Some(acc.GetOr(raw));
    } else if StartsWith(t, "{") {
      ObjectShapedValue(raw, field, parse);
      var parsed := parse(raw);
      if parsed.None? {
        return Some(raw);
      }
      match InnerPiece(parsed.value, field)
      case Raised => snapshot := Some(raw);
      case Text(s) => snapshot := Some(s);
      case NonText => snapshot := None;
    } else {
      PlainValueVerbatim(raw, field, parse);
      snapshot := Some(raw);
    }
  }

  // ---------------------------------------------------------------------
  // Properties of the decoder
  // ---------------------------------------------------------------------

  /** Step arrays decode piecewise: the text of `a + b` is the text of `a` followed by that of `b`. */
  lemma {:induction false} StepsTextAppend(a: seq<Json>, b: seq<Json>, field: Field, parse: Parser)
    ensures StepsText(a + b, field, parse) == Combine(StepsText(a, field, parse), StepsText(b, field, parse))
    decreases |b|
  {
    if b == [] {
      assert a + b == a;
      if StepsText(a, field, parse).Some? {
        assert StepsText(a, field, parse).value + "" == StepsText(a, field, parse).value;
      }
    } else {
      var b' := b[..|b| - 1];
      var last := b[|b| - 1];
      assert (a + b)[..|a + b| - 1] == a + b';
      assert (a + b)[|a + b| - 1] == last;
      StepsTextAppend(a, b', field, parse);
      var x, y, t := StepsText(a, field, parse), StepsText(b', field, parse), StepText(last, field, parse);
      assert StepsText(a + b, field, parse) == Combine(Combine(x, y), t);
      assert StepsText(b, field, parse) == Combine(y, t);
      CombineAssoc(x, y, t);
    }
  }

  /** Both texts, concatenated, unless either raised. */
  function Combine(x: Option<string>, y: Option<string>): (r: Option<string>)
    ensures r.Some? <==> x.Some? && y.Some?
  {
    if x.Some? && y.Some? then Some(x.value + y.value) else None
  }

  lemma CombineAssoc(x: Option<string>, y: Option<string>, z: Option<string>)
    ensures Combine(Combine(x, y), z) == Combine(x, Combine(y, z))
  {
    if x.Some? && y.Some? && z.Some? {
      assert (x.value + y.value) + z.value == x.value + (y.value + z.value);
    }
  }

  /** A one-step array decodes to that step's text. */
  lemma StepsTextSingle(step: Json, field: Field, parse: Parser)
    ensures StepsText([step], field, parse) == StepText(step, field, parse)
  {
    assert [step][..0] == [];
    if StepText(step, field, parse).Some? {
      assert "" + StepText(step, field, parse).value == StepText(step, field, parse).value;
    }
  }

  /** Appending steps only extends the decoded text: earlier text is a prefix of later text. */
  lemma StepsTextExtends(a: seq<Json>, b: seq<Json>, field: Field, parse: Parser)
    requires StepsText(a + b, field, parse).Some?
    ensures StepsText(a, field, parse).Some? && StepsText(b, field, parse).Some?
    ensures StepsText(a + b, field, parse).value ==
      StepsText(a, field, parse).value + StepsText(b, field, parse).value
  {
    StepsTextAppend(a, b, field, parse);
  }

  /** Under `text`, search steps contribute nothing, whatever their content. */
  lemma TextPathIgnoresSearchSteps(content: Json, parse: Parser)
    ensures TextStepText(SearchWeb(content), parse) == Some("")
    ensures TextStepText(SearchResults(content), parse) == Some("")
  {
  }

  /** A SEARCH_WEB step under `answer` renders its queries joined by ", " as a blockquote line. */
  lemma SearchWebRendering(qs: seq<Json>, names: seq<string>, parse: Parser)
    requires |names| == |qs|
    requires forall i :: 0 <= i < |qs| ==> PyIndex(qs[i], "query") == Some(JStr(names[i]))
    ensures AnswerStepText(SearchWeb(JObj([("queries", JArr(qs))])), parse) ==
      Some(SearchingPrefix + Join(names, ", ") + "\n\n")
  {
    var r := QueryStrings(qs);
    assert r.Some?;
    assert r.value == names;
  }

  /** SEARCH_RESULTS under `answer` reports the number of results, and nothing for an empty list. */
  lemma SearchResultsRendering(results: seq<Json>, parse: Parser)
    ensures AnswerStepText(SearchResults(JObj([("web_results", JArr(results))])), parse) ==
      Some(if results == [] then "" else FoundPrefix + NatToString(|results|) + SourcesSuffix)
  {
  }

  /** A FINAL step without `content.answer` contributes `str(None)` under `answer`, nothing under `text`. */
  lemma FinalWithoutAnswer(parse: Parser)
    ensures AnswerStepText(Final(JObj([])), parse) == Some("None")
    ensures TextStepText(Final(JObj([])), parse) == Some("")
  {
  }

  /** The nested FINAL answer: its inner `answer` when present, the raw string when parsing fails. */
  lemma NestedAnswerCases(raw: string, parse: Parser)
    ensures parse(raw).None? ==> NestedAnswer(raw, parse) == raw
    ensures parse(raw).Some? && parse(raw).value.JObj? && !HasKey(parse(raw).value.members, "answer") ==>
      NestedAnswer(raw, parse) == ""
    ensures forall a :: parse(raw).Some? && PyIndex(parse(raw).value, "answer") == Some(JStr(a)) ==>
      NestedAnswer(raw, parse) == a
    ensures parse(raw).Some? && PyIndex(parse(raw).value, "answer").Some? &&
            !PyIndex(parse(raw).value, "answer").value.JStr? ==>
              NestedAnswer(raw, parse) == raw
  {
  }

  /** A value that is neither an array nor an object is the snapshot verbatim. */
  lemma PlainValueVerbatim(raw: string, field: Field, parse: Parser)
    requires !StartsWith(Strip(raw), "[") && !StartsWith(Strip(raw), "{")
    ensures DecodeValue(raw, field, parse) == Some(raw)
  {
  }

  /** A value that does not parse is the snapshot verbatim, whatever its first character. */
  lemma UnparsableValueVerbatim(raw: string, field: Field, parse: Parser)
    requires parse(raw).None?
    ensures DecodeValue(raw, field, parse) == Some(raw)
  {
  }

  /**
   * Decoding a string value never gives up: the only case without a snapshot is
   * an object-shaped value whose inner `answer` is not a string.
   */
  lemma DecodeValueTotal(raw: string, field: Field, parse: Parser)
    ensures DecodeValue(raw, field, parse).None? ==>
      StartsWith(Strip(raw), "{") && parse(raw).Some? && InnerPiece(parse(raw).value, field) == NonText
  {
    var t := Strip(raw);
    if StartsWith(t, "[") {
      ArrayShapedValue(raw, field, parse);
    } else if StartsWith(t, "{") {
      ObjectShapedValue(raw, field, parse);
    } else {
      PlainValueVerbatim(raw, field, parse);
    }
  }

  /** A value whose stripped text opens with `{` is decoded as an object. */
  lemma ObjectShapedValue(raw: string, field: Field, parse: Parser)
    requires StartsWith(Strip(raw), "{")
    ensures DecodeValue(raw, field, parse) == DecodeObject(raw, field, parse)
  {
  }

  /** An object-shaped value gives None exactly when its inner `answer` exists and is not a string. */
  lemma ObjectNonTextAnswer(raw: string, field: Field, parse: Parser)
    ensures DecodeObject(raw, field, parse).None? <==>
      parse(raw).Some? && PyIndex(parse(raw).value, "answer").Some? && !PyIndex(parse(raw).value, "answer").value.JStr?
  {
  }

  /** A value that does not parse as JSON is kept verbatim. */
  lemma ObjectUnparsable(raw: string, field: Field, parse: Parser)
    requires parse(raw).None?
    ensures DecodeObject(raw, field, parse) == Some(raw)
  {
  }

  /** A string inner `answer` is the snapshot, under either field. */
  lemma ObjectInnerAnswer(raw: string, field: Field, parse: Parser, a: string)
    requires parse(raw).Some? && PyIndex(parse(raw).value, "answer") == Some(JStr(a))
    ensures DecodeObject(raw, field, parse) == Some(a)
  {
  }

  /** Under `answer`, a parsed dict without an inner `answer` gives the empty snapshot, whatever else it holds. */
  lemma ObjectNoAnswerUnderAnswer(raw: string, m: Dict<Json>, parse: Parser)
    requires parse(raw) == Some(JObj(m)) && !HasKey(m, "answer")
    ensures DecodeObject(raw, AnswerField, parse) == Some("")
  {
  }

  /** Under `text`, the `chunks` strings stand in for a missing inner `answer`, joined in order. */
  lemma ObjectChunksUnderText(raw: string, m: Dict<Json>, parse: Parser, chunks: seq<string>)
    requires parse(raw) == Some(JObj(m)) && !HasKey(m, "answer")
    requires Get(m, "chunks") == Some(JArr(seq(|chunks|, i requires 0 <= i < |chunks| => JStr(chunks[i]))))
    ensures DecodeObject(raw, TextField, parse) == Some(Concat(chunks))
  {
    var cs := seq(|chunks|, i requires 0 <= i < |chunks| => JStr(chunks[i]));
    var r := AllStrings(cs);
    assert forall i :: 0 <= i < |cs| ==> cs[i] == JStr(chunks[i]);
    assert r.Some?;
    assert forall i :: 0 <= i < |chunks| ==> r.value[i] == chunks[i];
    assert r.value == chunks;
  }

  /** Under `text`, a `chunks` array holding a non-string makes the join raise, and the value is kept verbatim. */
  lemma ObjectBadChunksUnderText(raw: string, m: Dict<Json>, parse: Parser, cs: seq<Json>, i: nat)
    requires parse(raw) == Some(JObj(m)) && !HasKey(m, "answer")
    requires Get(m, "chunks") == Some(JArr(cs)) && i < |cs| && !cs[i].JStr?
    ensures DecodeObject(raw, TextField, parse) == Some(raw)
  {
  }

  /** Under `text`, a parsed dict with neither `answer` nor `chunks` gives the empty snapshot. */
  lemma ObjectNeitherUnderText(raw: string, m: Dict<Json>, parse: Parser)
    requires parse(raw) == Some(JObj(m)) && !HasKey(m, "answer") && !HasKey(m, "chunks")
    ensures DecodeObject(raw, TextField, parse) == Some("")
  {
  }

  /** `answer` is looked at before `text`: an event holding both is decoded from `answer` alone. */
  lemma AnswerBeforeText(m: Dict<Json>, raw: string, other: Json, parse: Parser)
    requires Get(m, "answer") == Some(JStr(raw)) && Get(m, "text") == Some(other)
    ensures Snapshot(JObj(m), parse) == DecodeValue(raw, AnswerField, parse)
  {
  }

  /** `{"text": raw}` carries `raw` itself when `raw` is trimmed text opening with neither bracket. */
  lemma PlainTextSnapshot(raw: string, parse: Parser)
    requires raw != [] && Trimmed(raw) && raw[0] != '[' && raw[0] != '{'
    ensures Snapshot(JObj([("text", JStr(raw))]), parse) == Some(raw)
  {
    TextOnlySnapshot(raw, parse);
    TrimmedPlainValue(raw, TextField, parse);
  }

  /** A trimmed value opening with neither bracket decodes to itself. */
  lemma TrimmedPlainValue(raw: string, field: Field, parse: Parser)
    requires raw != [] && Trimmed(raw) && raw[0] != '[' && raw[0] != '{'
    ensures DecodeValue(raw, field, parse) == Some(raw)
  {
    StripSetNoop(raw, Whitespace);
    PlainValueVerbatim(raw, field, parse);
  }

  /** An event holding just a string `text` carries what that value decodes to. */
  lemma TextOnlySnapshot(raw: string, parse: Parser)
    ensures Snapshot(JObj([("text", JStr(raw))]), parse) == DecodeValue(raw, TextField, parse)
  {
    var m := [("text", JStr(raw))];
    assert IndexOf(m, "text") == Some(0);
    assert m[0].0 != "answer";
    assert IndexOf(m, "answer") == None;
  }

  /** An event whose `answer` is an array-shaped string of steps carries those steps' text, or the raw string if one raises. */
  lemma ArrayAnswerSnapshot(raw: string, steps: seq<Json>, parse: Parser)
    requires StartsWith(Strip(raw), "[") && parse(raw) == Some(JArr(steps))
    ensures Snapshot(JObj([("answer", JStr(raw))]), parse) == Some(StepsText(steps, AnswerField, parse).GetOr(raw))
  {
    AnswerOnlySnapshot(raw, parse);
    ArrayShapedValue(raw, AnswerField, parse);
    ArrayValueSteps(raw, steps, AnswerField, parse);
  }

  /** An event holding just a string `answer` carries what that value decodes to. */
  lemma AnswerOnlySnapshot(raw: string, parse: Parser)
    ensures Snapshot(JObj([("answer", JStr(raw))]), parse) == DecodeValue(raw, AnswerField, parse)
  {
    var m := [("answer", JStr(raw))];
    assert IndexOf(m, "answer") == Some(0);
    assert PyIn("answer", JObj(m)) == Some(true);
    assert PyIndex(JObj(m), "answer") == Some(JStr(raw));
  }

  /** A parsed step array decodes to its steps' text, or to the raw string when a step raises. */
  lemma ArrayValueSteps(raw: string, steps: seq<Json>, field: Field, parse: Parser)
    requires parse(raw) == Some(JArr(steps))
    ensures DecodeArray(raw, field, parse) == StepsText(steps, field, parse).GetOr(raw)
  {
  }

  /** A value whose stripped text opens with `[` is decoded as a step array. */
  lemma ArrayShapedValue(raw: string, field: Field, parse: Parser)
    requires StartsWith(Strip(raw), "[")
    ensures DecodeValue(raw, field, parse) == Some(DecodeArray(raw, field, parse))
  {
  }

  /** A value opening with `[` and closing with `]` is array-shaped. */
  lemma BracketedStrip(raw: string)
    requires |raw| > 0 && raw[0] == '[' && raw[|raw| - 1] == ']'
    ensures StartsWith(Strip(raw), "[")
  {
    StripSetNoop(raw, Whitespace);
  }

  /** The one SEARCH_WEB step of the example below renders as the searching notice for "cats". */
  lemma SearchWebStepExample(parse: Parser)
    ensures StepText(JObj([
      ("step_type", JStr("SEARCH_WEB")),
      ("content", JObj([("queries", JArr([JObj([("query", JStr("cats"))])]))]))]), AnswerField, parse) ==
      Some(SearchingPrefix + "cats\n\n")
  {
    var content := JObj([("queries", JArr([JObj([("query", JStr("cats"))])]))]);
    var m := [("step_type", JStr("SEARCH_WEB")), ("content", content)];
    assert Get(m, "step_type") == Some(JStr("SEARCH_WEB"));
    assert m[1..] == [("content", content)];
    assert IndexOf(m[1..], "content") == Some(0);
    assert IndexOf(m, "content") == Some(1);
    assert ClassifyStep(JObj(m)) == Some(SearchWeb(content));
    SearchWebRendering([JObj([("query", JStr("cats"))])], ["cats"], parse);
    assert Join(["cats"], ", ") == "cats";
    assert SearchingPrefix + Join(["cats"], ", ") + "\n\n" == SearchingPrefix + "cats\n\n";
  }

  /** The text of a SEARCH_WEB step object querying "cats". */
  const CatsStep: string := "{\"step_type\":\"SEARCH_WEB\",\"content\":{\"queries\":[{\"query\":\"cats\"}]}}"

  /** An `answer` holding a one-step SEARCH_WEB array for "cats" decodes to the searching notice. */
  lemma SearchWebExample(raw: string, parse: Parser)
    requires raw == "[" + CatsStep + "]"
    requires parse(raw) == Some(JArr([JObj([
      ("step_type", JStr("SEARCH_WEB")),
      ("content", JObj([("queries", JArr([JObj([("query", JStr("cats"))])]))]))])]))
    ensures Snapshot(JObj([("answer", JStr(raw))]), parse) == Some(SearchingPrefix + "cats\n\n")
  {
    assert raw[0] == '[' && raw[|raw| - 1] == ']';
    BracketedStrip(raw);
    var step := JObj([
      ("step_type", JStr("SEARCH_WEB")),
      ("content", JObj([("queries", JArr([JObj([("query", JStr("cats"))])]))]))]);
    SearchWebStepExample(parse);
    StepsTextSingle(step, AnswerField, parse);
    ArrayAnswerSnapshot(raw, [step], parse);
  }
}
