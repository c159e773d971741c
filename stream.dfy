/**
 * The stream translator of `stream_generator`: upstream text chunks are cut
 * into lines, `data: ` lines are decoded into cumulative snapshots, and only
 * the new suffix of each longer snapshot is forwarded as a chat-completion
 * frame. The stream always closes with a stop frame and `[DONE]`.
 */
module Stream {
  import opened Wrappers
  import opened Text
  import opened Json
  import opened Envelope

  /** A chat-completion chunk with its content and finish reason, or the `[DONE]` marker. */
  datatype Frame = Chunk(content: string, finishReason: Option<string>) | Done

  /**
   * What the upstream request produced: an exception before any reply, or a
   * reply with its status, its body as decoded chunks, and the message of an
   * exception that cut the body short.
   */
  datatype Upstream =
    | RequestFailed(message: string)
    | Reply(status: int, chunks: seq<string>, interruption: Option<string>)

  /** `last_full_text` and `has_content`. */
  datatype Emitter = Emitter(lastFullText: string, hasContent: bool)

  const Initial: Emitter := Emitter("", false)
  const StopReason: Option<string> := Some("stop")
  const NoContentWarning: string := "[Warning: No content returned]"
  const DataPrefix: string := "data: "

  function StatusError(status: int): string {
    "[Error: Upstream " + IntToString(status) + " - Cookie may have expired, please re-import via Web UI]"
  }

  function ExceptionError(message: string): string {
    "[Error: " + message + "]"
  }

  // ---------------------------------------------------------------------
  // Line framing
  // ---------------------------------------------------------------------

  /** The lines ended by a newline; an unterminated tail is not a line yet. */
  function CompleteLines(s: string): (r: seq<string>)
    ensures forall i :: 0 <= i < |r| ==> '\n' !in r[i]
  {
    var parts := Split(s, '\n');
    parts[..|parts| - 1]
  }

  /** The text of `lines`, each followed by a newline. */
  function Terminated(lines: seq<string>): string {
    if lines == [] then "" else Terminated(lines[..|lines| - 1]) + lines[|lines| - 1] + "\n"
  }

  /** The JSON payload of a kept line: a stripped `data: ` line, stripped again after the prefix, other than `[DONE]`. */
  function Payload(line: string): (r: Option<string>)
    ensures r.Some? ==> StartsWith(Strip(line), DataPrefix) && r.value != "[DONE]"
    ensures !StartsWith(Strip(line), DataPrefix) ==> r.None?
    ensures StartsWith(Strip(line), DataPrefix) && Strip(Strip(line)[|DataPrefix|..]) != "[DONE]" ==>
      r == Some(Strip(Strip(line)[|DataPrefix|..]))
  {
    var t := Strip(line);
    if !StartsWith(t, DataPrefix) then None
    else
      var p := Strip(t[|DataPrefix|..]);
      if p == "[DONE]" then None else Some(p)
  }

  /** The snapshot one line carries; None when the line is skipped or its decoding raises. */
  function LineSnapshot(line: string, parse: Parser): Option<string> {
    match Payload(line)
    case None => None
    case Some(p) =>
      match parse(p)
      case None => None
      case Some(data) => Snapshot(data, parse)
  }

  function OptSeq(o: Option<string>): (r: seq<string>)
    ensures o.Some? ==> r == [o.value]
    ensures o.None? ==> r == []
  {
    if o.Some? then [o.value] else []
  }

  /** The values `f` gives for `xs`, in order, skipping the Nones. */
  function Collect(f: string -> Option<string>, xs: seq<string>): seq<string> {
    if xs == [] then []
    else Collect(f, xs[..|xs| - 1]) + OptSeq(f(xs[|xs| - 1]))
  }

  lemma CollectSnoc(f: string -> Option<string>, xs: seq<string>, x: string)
    ensures Collect(f, xs + [x]) == Collect(f, xs) + OptSeq(f(x))
  {
    assert (xs + [x])[..|xs|] == xs;
  }

  lemma {:induction false} CollectAppend(f: string -> Option<string>, a: seq<string>, b: seq<string>)
    ensures Collect(f, a + b) == Collect(f, a) + Collect(f, b)
    decreases |b|
  {
    if b == [] {
      assert a + b == a;
    } else {
      var b' := b[..|b| - 1];
      assert (a + b)[..|a + b| - 1] == a + b';
      assert (a + b)[|a + b| - 1] == b[|b| - 1];
      CollectAppend(f, a, b');
    }
  }

  /** `LineSnapshot` as a function value. */
  function LineSnapshots(parse: Parser): string -> Option<string> {
    line => LineSnapshot(line, parse)
  }

  /** The snapshots of the lines that carry one, in order. */
  function Snapshots(lines: seq<string>, parse: Parser): seq<string> {
    Collect(LineSnapshots(parse), lines)
  }

  // ---------------------------------------------------------------------
  // Delta emission
  // ---------------------------------------------------------------------

  /** One snapshot: a non-empty one longer than the last emits its suffix past the last's length. */
  function EmitStep(e: Emitter, current: string): (r: (Emitter, Option<string>))
    ensures current != "" && |current| > |e.lastFullText| ==>
      r == (Emitter(current, true), Some(current[|e.lastFullText|..]))
    ensures !(current != "" && |current| > |e.lastFullText|) ==> r == (e, None)
  {
    if current != "" && |current| > |e.lastFullText| then
      (Emitter(current, true), Some(current[|e.lastFullText|..]))
    else (e, None)
  }

  /** The emitter after a run of snapshots, with the deltas emitted on the way. */
  function EmitAll(e: Emitter, snaps: seq<string>): (Emitter, seq<string>) {
    if snaps == [] then (e, [])
    else
      var (e1, ds) := EmitAll(e, snaps[..|snaps| - 1]);
      var (e2, d) := EmitStep(e1, snaps[|snaps| - 1]);
      (e2, ds + OptSeq(d))
  }

  /** One line through the decoder and the emitter. */
  function LineStep(e: Emitter, line: string, parse: Parser): (Emitter, Option<string>) {
    match LineSnapshot(line, parse)
    case None => (e, None)
    case Some(current) => EmitStep(e, current)
  }

  /** Appending one snapshot runs one more emitter step. */
  lemma EmitAllSnoc(e: Emitter, snaps: seq<string>, x: string)
    ensures EmitAll(e, snaps + [x]) ==
      (EmitStep(EmitAll(e, snaps).0, x).0, EmitAll(e, snaps).1 + OptSeq(EmitStep(EmitAll(e, snaps).0, x).1))
  {
    assert (snaps + [x])[..|snaps|] == snaps;
  }

  /** Handling one more line is one more `LineStep` on the emitter reached so far. */
  lemma EmitAllLine(done: seq<string>, line: string, parse: Parser)
    ensures EmitAll(Initial, Snapshots(done + [line], parse)) ==
      (LineStep(EmitAll(Initial, Snapshots(done, parse)).0, line, parse).0,
       EmitAll(Initial, Snapshots(done, parse)).1 + OptSeq(LineStep(EmitAll(Initial, Snapshots(done, parse)).0, line, parse).1))
  {
    assert (done + [line])[..|done|] == done;
    var snaps := Snapshots(done, parse);
    CollectSnoc(LineSnapshots(parse), done, line);
    assert Snapshots(done + [line], parse) == snaps + OptSeq(LineSnapshot(line, parse));
    match LineSnapshot(line, parse)
    case None =>
      assert snaps + [] == snaps;
      var ds := EmitAll(Initial, snaps).1;
      assert ds + [] == ds;
    case Some(current) =>
      EmitAllSnoc(Initial, snaps, current);
  }

  function DeltaFrames(deltas: seq<string>): (r: seq<Frame>)
    ensures |r| == |deltas| && forall i :: 0 <= i < |deltas| ==> r[i] == Chunk(deltas[i], None)
  {
    seq(|deltas|, i requires 0 <= i < |deltas| => Chunk(deltas[i], None))
  }

  /** One more delta is one more content frame. */
  lemma DeltaFramesSnoc(deltas: seq<string>, d: string)
    ensures DeltaFrames(deltas + [d]) == DeltaFrames(deltas) + [Chunk(d, None)]
  {
  }

  /** The frames for a stream that ended normally or was cut short. */
  function Closing(e: Emitter, interruption: Option<string>): seq<Frame> {
    match interruption
    case Some(m) => [Chunk(ExceptionError(m), StopReason), Done]
    case None =>
      (if e.hasContent then [] else [Chunk(NoContentWarning, StopReason)]) + [Chunk("", StopReason), Done]
  }

  /** Everything the client receives for one upstream request. */
  function Translate(up: Upstream, parse: Parser): seq<Frame> {
    match up
    case RequestFailed(m) => [Chunk(ExceptionError(m), StopReason), Done]
    case Reply(status, chunks, interruption) =>
      if status != 200 then [Chunk(StatusError(status), StopReason), Done]
      else
        var (e, deltas) := EmitAll(Initial, Snapshots(CompleteLines(Concat(chunks)), parse));
        DeltaFrames(deltas) + Closing(e, interruption)
  }

  // ---------------------------------------------------------------------
  // The streaming loop
  // ---------------------------------------------------------------------

  /** Splitting terminated lines followed by a rest gives the lines, then the rest's pieces. */
  lemma {:induction false} SplitTerminated(done: seq<string>, rest: string)
    requires forall i :: 0 <= i < |done| ==> '\n' !in done[i]
    ensures Split(Terminated(done) + rest, '\n') == done + Split(rest, '\n')
    decreases |done|
  {
    if done == [] {
      assert Terminated(done) + rest == rest;
      assert done + Split(rest, '\n') == Split(rest, '\n');
    } else {
      var init, last := done[..|done| - 1], done[|done| - 1];
      assert Terminated(done) + rest == (Terminated(init) + last) + ['\n'] + rest;
      SplitAppend(Terminated(init) + last, rest, '\n');
      assert forall i :: 0 <= i < |init| ==> init[i] == done[i];
      SplitTerminated(init, last);
      SplitNoSep(last, '\n');
      assert init + [last] == done;
      assert (init + [last]) + Split(rest, '\n') == done + Split(rest, '\n');
    }
  }

  /** Buffered text with no newline left: the lines handed out so far are exactly its complete lines. */
  lemma CompleteLinesOfBuffer(done: seq<string>, buffer: string)
    requires NoNewlines(done)
    requires '\n' !in buffer
    ensures CompleteLines(Terminated(done) + buffer) == done
  {
    SplitTerminated(done, buffer);
    SplitNoSep(buffer, '\n');
  }

  /** No line holds a newline. */
  predicate NoNewlines(lines: seq<string>) {
    forall j :: 0 <= j < |lines| ==> '\n' !in lines[j]
  }

  /** Appending the next chunk to the buffer keeps the buffer the unprocessed end of the body so far. */
  lemma ChunkAppended(chunks: seq<string>, i: nat, processed: string, buffer: string)
    requires i < |chunks| && Concat(chunks[..i]) == processed + buffer
    ensures Concat(chunks[..i + 1]) == processed + (buffer + chunks[i])
  {
    ConcatAppend(chunks[..i], [chunks[i]]);
    assert chunks[..i + 1] == chunks[..i] + [chunks[i]];
    assert Concat([chunks[i]]) == chunks[i];
  }

  /** Cutting the first line off the buffer moves it to the handled lines. */
  lemma LineCut(done: seq<string>, line: string, rest: string, buffer: string)
    requires NoNewlines(done) && buffer == line + "\n" + rest && '\n' !in line
    ensures NoNewlines(done + [line])
    ensures Terminated(done + [line]) + rest == Terminated(done) + buffer
  {
    assert (done + [line])[..|done|] == done;
  }

  /** One line of the body: decode it and emit the new suffix of its snapshot, if any. */
  method HandleLine(line: string, parse: Parser, lastFullText: string, hasContent: bool)
    returns (lastFullText': string, hasContent': bool, delta: Option<string>)
    ensures (Emitter(lastFullText', hasContent'), delta) == LineStep(Emitter(lastFullText, hasContent), line, parse)
  {
    lastFullText', hasContent', delta := lastFullText, hasContent, None;
    var payload := Payload(line);
    if payload.None? {
      return;
    }
    var data := parse(payload.value);
    if data.None? {
      return;
    }
    var current := DecodeEvent(data.value, parse);
    if current.Some? && current.value != "" && |current.value| > |lastFullText| {
      delta := Some(current.value[|lastFullText|..]);
      lastFullText' := current.value;
      hasContent' := true;
    }
  }

  /** What the emitter has reached after the lines handled so far, and the frames sent for them. */
  ghost predicate Emitted(done: seq<string>, parse: Parser, lastFullText: string, hasContent: bool,
                          deltas: seq<string>, frames: seq<Frame>)
  {
    EmitAll(Initial, Snapshots(done, parse)) == (Emitter(lastFullText, hasContent), deltas) &&
    frames == DeltaFrames(deltas)
  }

  /** Handling one more line keeps `Emitted`, with that line's delta sent as one more frame. */
  lemma EmittedLine(done: seq<string>, line: string, parse: Parser, lastFullText: string, hasContent: bool,
                    deltas: seq<string>, frames: seq<Frame>, lastFullText': string, hasContent': bool,
                    delta: Option<string>)
    requires Emitted(done, parse, lastFullText, hasContent, deltas, frames)
    requires (Emitter(lastFullText', hasContent'), delta) == LineStep(Emitter(lastFullText, hasContent), line, parse)
    ensures Emitted(done + [line], parse, lastFullText', hasContent', deltas + OptSeq(delta),
                    frames + (if delta.Some? then [Chunk(delta.value, None)] else []))
  {
    EmitAllLine(done, line, parse);
    if delta.Some? {
      DeltaFramesSnoc(deltas, delta.value);
    } else {
      assert deltas + [] == deltas;
      assert frames + [] == frames;
    }
  }

  /** The inner `while '\n' in buffer` loop: every complete line in the buffer is cut off and handled. */
  method DrainBuffer(buffer: string, parse: Parser, lastFullText: string, hasContent: bool, frames: seq<Frame>,
                     ghost done: seq<string>, ghost deltas: seq<string>)
    returns (rest: string, lastFullText': string, hasContent': bool, frames': seq<Frame>,
             ghost done': seq<string>, ghost deltas': seq<string>)
    requires NoNewlines(done) && Emitted(done, parse, lastFullText, hasContent, deltas, frames)
    ensures Terminated(done') + rest == Terminated(done) + buffer && '\n' !in rest
    ensures NoNewlines(done') && Emitted(done', parse, lastFullText', hasContent', deltas', frames')
  {
    rest, lastFullText', hasContent', frames', done', deltas' := buffer, lastFullText, hasContent, frames, done, deltas;
    while '\n' in rest
      invariant Terminated(done') + rest == Terminated(done) + buffer
      invariant NoNewlines(done') && Emitted(done', parse, lastFullText', hasContent', deltas', frames')
      decreases |rest|
    {
      var (line, after) := SplitOnceChar(rest, '\n');
      LineCut(done', line, after, rest);
      ghost var (e, d) := (lastFullText', hasContent');
      var delta;
      lastFullText', hasContent', delta := HandleLine(line, parse, lastFullText', hasContent');
      EmittedLine(done', line, parse, e, d, deltas', frames', lastFullText', hasContent', delta);
      if delta.Some? {
        frames' := frames' + [Chunk(delta.value, None)];
      }
      deltas' := deltas' + OptSeq(delta);
      rest := after;
      done' := done' + [line];
    }
  }

  /** The body loop over the reply's chunks; the unterminated tail is left in the buffer. */
  method ReadBody(chunks: seq<string>, parse: Parser) returns (lastFullText: string, hasContent: bool, frames: seq<Frame>)
    ensures var (e, deltas) := EmitAll(Initial, Snapshots(CompleteLines(Concat(chunks)), parse));
            e == Emitter(lastFullText, hasContent) && frames == DeltaFrames(deltas)
  {
    lastFullText, hasContent, frames := "", false, [];
    var buffer := "";
    ghost var done: seq<string> := [];
    ghost var deltas: seq<string> := [];
    var i := 0;
    while i < |chunks|
      invariant 0 <= i <= |chunks|
      invariant Concat(chunks[..i]) == Terminated(done) + buffer
      invariant '\n' !in buffer
      invariant NoNewlines(done) && Emitted(done, parse, lastFullText, hasContent, deltas, frames)
    {
      ChunkAppended(chunks, i, Terminated(done), buffer);
      buffer, lastFullText, hasContent, frames, done, deltas :=
        DrainBuffer(buffer + chunks[i], parse, lastFullText, hasContent, frames, done, deltas);
      i := i + 1;
    }
    assert chunks[..i] == chunks;
    CompleteLinesOfBuffer(done, buffer);
  }

  /**
   * Chunks are appended to a buffer and every newline-terminated line is cut
   * off and handled as soon as it is complete; the frames are those
   * `Translate` describes, however the body was chunked.
   */
  method TranslateStream(up: Upstream, parse: Parser) returns (frames: seq<Frame>)
    ensures frames == Translate(up, parse)
  {
    if up.RequestFailed? {
      return [Chunk(ExceptionError(up.message), StopReason), Done];
    }
    if up.status != 200 {
      return [Chunk(StatusError(up.status), StopReason), Done];
    }
    var lastFullText, hasContent;
    lastFullText, hasContent, frames := ReadBody(up.chunks, parse);
    if up.interruption.Some? {
      frames := frames + [Chunk(ExceptionError(up.interruption.value), StopReason), Done];
      return;
    }
    if !hasContent {
      frames := frames + [Chunk(NoContentWarning, StopReason)];
    }
    frames := frames + [Chunk("", StopReason), Done];
  }

  // ---------------------------------------------------------------------
  // Properties of the translator
  // ---------------------------------------------------------------------

  /** A final piece with no newline is never handled: appending it does not change the lines. */
  lemma UnterminatedTailIgnored(s: string, tail: string)
    requires '\n' !in tail
    ensures CompleteLines(s + tail) == CompleteLines(s)
  {
    var done, last := SplitAsTerminated(s);
    CompleteLinesOfBuffer(done, last);
    assert s + tail == Terminated(done) + (last + tail);
    CompleteLinesOfBuffer(done, last + tail);
  }

  /** Every buffer is its complete lines, terminated, followed by a newline-free rest. */
  lemma SplitAsTerminated(s: string) returns (done: seq<string>, last: string)
    ensures done == CompleteLines(s) && NoNewlines(done) && '\n' !in last
    ensures s == Terminated(done) + last
  {
    var parts := Split(s, '\n');
    done := parts[..|parts| - 1];
    last := parts[|parts| - 1];
    JoinSplit(s, '\n');
    TerminatedJoin(parts);
  }

  /** Joining pieces by newlines is terminating all but the last. */
  lemma {:induction false} TerminatedJoin(parts: seq<string>)
    requires |parts| >= 1
    ensures Join(parts, "\n") == Terminated(parts[..|parts| - 1]) + parts[|parts| - 1]
    decreases |parts|
  {
    if |parts| > 1 {
      var init := parts[..|parts| - 1];
      var rest := parts[1..];
      TerminatedJoin(rest);
      DropFirstInit(parts);
      assert init == [init[0]] + init[1..];
      TerminatedCons(init[0], init[1..]);
    }
  }

  /** Dropping the first element and then the last is dropping the last and then the first. */
  lemma DropFirstInit<T>(s: seq<T>)
    requires |s| >= 2
    ensures s[1..][..|s| - 2] == s[..|s| - 1][1..]
  {
    var a := s[1..][..|s| - 2];
    var b := s[..|s| - 1][1..];
    assert |a| == |b|;
    forall i | 0 <= i < |a|
      ensures a[i] == b[i]
    {
      assert a[i] == s[i + 1] && b[i] == s[i + 1];
    }
  }

  lemma {:induction false} TerminatedCons(first: string, lines: seq<string>)
    ensures Terminated([first] + lines) == first + "\n" + Terminated(lines)
    decreases |lines|
  {
    if lines == [] {
      assert [first] + lines == [first];
      assert [first][..0] == [];
    } else {
      var init := lines[..|lines| - 1];
      assert ([first] + lines)[..|lines|] == [first] + init;
      TerminatedCons(first, init);
    }
  }

  /** Lines are selected by their stripped `data: ` prefix; `[DONE]` and other lines carry nothing. */
  lemma LineSelection(line: string, parse: Parser)
    ensures !StartsWith(Strip(line), DataPrefix) ==> LineSnapshot(line, parse).None?
    ensures StartsWith(Strip(line), DataPrefix) && Strip(Strip(line)[6..]) == "[DONE]" ==>
      LineSnapshot(line, parse).None?
  {
  }

  /** Snapshots of concatenated line runs are the concatenated snapshots. */
  lemma SnapshotsAppend(a: seq<string>, b: seq<string>, parse: Parser)
    ensures Snapshots(a + b, parse) == Snapshots(a, parse) + Snapshots(b, parse)
  {
    CollectAppend(LineSnapshots(parse), a, b);
  }

  /** A line whose decoding raises (or that is skipped) changes nothing about what is emitted. */
  lemma FailedLineSkipped(a: seq<string>, bad: string, b: seq<string>, parse: Parser)
    requires LineSnapshot(bad, parse).None?
    ensures Snapshots(a + [bad] + b, parse) == Snapshots(a + b, parse)
  {
    SnapshotsAppend(a + [bad], b, parse);
    SnapshotsAppend(a, [bad], parse);
    SnapshotsAppend(a, b, parse);
    assert [bad][..0] == [];
    assert Snapshots([bad], parse) == [];
    assert Snapshots(a, parse) + [] == Snapshots(a, parse);
  }

  /** Emitted deltas add up to the last forwarded snapshot's length; something was emitted exactly when `has_content`. */
  lemma {:induction false} DeltaLengths(snaps: seq<string>)
    ensures var (e, ds) := EmitAll(Initial, snaps);
            |Concat(ds)| == |e.lastFullText| && (e.hasContent <==> ds != [])
    decreases |snaps|
  {
    if snaps != [] {
      var (e1, ds) := EmitAll(Initial, snaps[..|snaps| - 1]);
      DeltaLengths(snaps[..|snaps| - 1]);
      var (e2, d) := EmitStep(e1, snaps[|snaps| - 1]);
      ConcatAppend(ds, OptSeq(d));
      if d.Some? {
        assert Concat([d.value]) == d.value;
      } else {
        assert ds + [] == ds;
      }
    }
  }

  /** `a` is a prefix of `b`. */
  predicate IsPrefix(a: string, b: string) {
    |a| <= |b| && b[..|a|] == a
  }

  /** Each snapshot extends the one before. */
  predicate Growing(snaps: seq<string>) {
    forall i :: 0 < i < |snaps| ==> IsPrefix(snaps[i - 1], snaps[i])
  }

  /** When snapshots only grow, the emitted deltas put together are the last snapshot. */
  lemma {:induction false} GrowingReconstructs(snaps: seq<string>)
    requires Growing(snaps)
    ensures var (e, ds) := EmitAll(Initial, snaps);
            var last := if snaps == [] then "" else snaps[|snaps| - 1];
            Concat(ds) == last && e.lastFullText == last
    decreases |snaps|
  {
    if snaps != [] {
      var init := snaps[..|snaps| - 1];
      assert Growing(init) by {
        forall i | 0 < i < |init| ensures IsPrefix(init[i - 1], init[i]) {
          assert init[i - 1] == snaps[i - 1] && init[i] == snaps[i];
        }
      }
      GrowingReconstructs(init);
      var (e1, ds) := EmitAll(Initial, init);
      var cur := snaps[|snaps| - 1];
      var prev := if init == [] then "" else init[|init| - 1];
      assert IsPrefix(prev, cur);
      var (e2, d) := EmitStep(e1, cur);
      ConcatAppend(ds, OptSeq(d));
      if d.Some? {
        assert Concat([d.value]) == d.value;
        assert prev + cur[|prev|..] == cur;
      } else {
        assert ds + [] == ds;
        assert cur == prev;
      }
    }
  }

  /** A shorter or equal snapshot emits nothing and leaves the emitter as it was. */
  lemma ShorterSnapshotIgnored(e: Emitter, current: string)
    requires |current| <= |e.lastFullText|
    ensures EmitStep(e, current) == (e, None)
  {
  }

  /** Snapshots "Hel", "Hello", "Hell" yield the deltas "Hel" and "lo". */
  lemma DeltaExample()
    ensures EmitAll(Initial, ["Hel", "Hello", "Hell"]) == (Emitter("Hello", true), ["Hel", "lo"])
  {
    assert EmitStep(Initial, "Hel") == (Emitter("Hel", true), Some("Hel"));
    EmitAllAfter(Initial, [], "Hel", Initial, []);
    assert [] + ["Hel"] == ["Hel"];
    assert "Hello"[3..] == "lo";
    assert EmitStep(Emitter("Hel", true), "Hello") == (Emitter("Hello", true), Some("lo"));
    EmitAllAfter(Initial, ["Hel"], "Hello", Emitter("Hel", true), ["Hel"]);
    assert ["Hel"] + ["Hello"] == ["Hel", "Hello"];
    assert EmitStep(Emitter("Hello", true), "Hell") == (Emitter("Hello", true), None);
    EmitAllAfter(Initial, ["Hel", "Hello"], "Hell", Emitter("Hello", true), ["Hel"] + ["lo"]);
    assert ["Hel", "Hello"] + ["Hell"] == ["Hel", "Hello", "Hell"];
    assert ["Hel"] + ["lo"] + [] == ["Hel", "lo"];
  }

  /** From a known emitter state, one more snapshot is one more step. */
  lemma EmitAllAfter(e: Emitter, snaps: seq<string>, x: string, st: Emitter, ds: seq<string>)
    requires EmitAll(e, snaps) == (st, ds)
    ensures EmitAll(e, snaps + [x]) == (EmitStep(st, x).0, ds + OptSeq(EmitStep(st, x).1))
  {
    EmitAllSnoc(e, snaps, x);
  }

  /** A non-200 reply gives exactly one error frame naming the status, then `[DONE]`. */
  lemma NonOkReply(status: int, chunks: seq<string>, interruption: Option<string>, parse: Parser)
    requires status != 200
    ensures Translate(Reply(status, chunks, interruption), parse) == [Chunk(StatusError(status), StopReason), Done]
  {
  }

  /**
   * Every stream ends with a stop frame and then `[DONE]`, and `[DONE]` occurs
   * nowhere else; an uninterrupted reply with no content warns before its stop frame.
   */
  lemma AlwaysClosed(up: Upstream, parse: Parser)
    ensures Closed(Translate(up, parse))
  {
    match up
    case RequestFailed(_) =>
    case Reply(status, chunks, interruption) =>
      if status == 200 {
        var (e, deltas) := EmitAll(Initial, Snapshots(CompleteLines(Concat(chunks)), parse));
        assert Translate(up, parse) == DeltaFrames(deltas) + Closing(e, interruption);
        ClosingClosed(e, interruption);
        ClosedAfterChunks(DeltaFrames(deltas), Closing(e, interruption));
      }
  }

  lemma ClosingClosed(e: Emitter, interruption: Option<string>)
    ensures Closed(Closing(e, interruption))
  {
    if interruption.None? {
      var w: seq<Frame> := if e.hasContent then [] else [Chunk(NoContentWarning, StopReason)];
      var fs := w + [Chunk("", StopReason), Done];
      assert fs[|fs| - 1] == Done && fs[|fs| - 2] == Chunk("", StopReason);
      assert forall i :: 0 <= i < |w| ==> w[i].Chunk?;
    }
  }

  /** Ends with a stop frame, then `[DONE]`, and `[DONE]` nowhere before. */
  predicate Closed(fs: seq<Frame>) {
    |fs| >= 2 && fs[|fs| - 1] == Done &&
    fs[|fs| - 2].Chunk? && fs[|fs| - 2].finishReason == StopReason &&
    forall i :: 0 <= i < |fs| - 1 ==> fs[i] != Done
  }

  /** Content frames followed by a closed tail form a closed stream. */
  lemma ClosedAfterChunks(body: seq<Frame>, tail: seq<Frame>)
    requires forall i :: 0 <= i < |body| ==> body[i].Chunk?
    requires Closed(tail)
    ensures Closed(body + tail)
  {
    var fs := body + tail;
    forall i | 0 <= i < |fs| - 1 ensures fs[i] != Done {
      if i < |body| {
        assert fs[i] == body[i];
      } else {
        assert fs[i] == tail[i - |body|];
      }
    }
  }

  /** An uninterrupted 200 reply: the deltas, a warning if there were none, an empty stop frame, `[DONE]`. */
  lemma NormalEnd(chunks: seq<string>, parse: Parser)
    ensures var deltas := EmitAll(Initial, Snapshots(CompleteLines(Concat(chunks)), parse)).1;
            Translate(Reply(200, chunks, None), parse) ==
              DeltaFrames(deltas) + (if deltas == [] then [Chunk(NoContentWarning, StopReason)] else []) +
              [Chunk("", StopReason), Done]
  {
    DeltaLengths(Snapshots(CompleteLines(Concat(chunks)), parse));
  }
}
