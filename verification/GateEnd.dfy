/** How the driver of the same-wire gate ends its output: refused chunks, transport errors, errors appended to a body. */
module GateEnd {
  import opened Utf8
  import opened Sse
  import opened SseFormat
  import opened Gate
  import opened GateRuns
  import opened GateOutput
  import opened GateStrands
  import opened GateVendor

  // ---- the driver ----

  /** All that is sent for a body read as `chunks`, which ends in the transport error `end` if there is one. */
  function Driven(u: Upstream, chunks: seq<Bytes>, end: Option<string>): Bytes {
    var run := After(u, chunks);
    if run.failed.Some? then run.sent + u.ErrorBytes(run.failed.value)
    else match end
      case Some(message) => run.sent + u.ErrorBytes(message)
      case None => Output(u, chunks)
  }

  /** A run that was refused a chunk reads no more. */
  lemma {:induction false} FailedStays(u: Upstream, run: Run, later: seq<Bytes>)
    requires run.failed.Some?
    ensures RunFrom(u, run, later) == run
    decreases |later|
  {
    if later != [] {
      FailedStays(u, run, later[..|later| - 1]);
    }
  }

  lemma {:induction false} RunConcat(u: Upstream, run: Run, a: seq<Bytes>, b: seq<Bytes>)
    ensures RunFrom(u, run, a + b) == RunFrom(u, RunFrom(u, run, a), b)
    decreases |b|
  {
    if b == [] {
      assert a + b == a;
    } else {
      var n := |b| - 1;
      assert (a + b)[..|a + b| - 1] == a + b[..n];
      RunConcat(u, run, a, b[..n]);
    }
  }

  lemma {:induction false} RefusedAt(u: Upstream, chunks: seq<Bytes>, n: nat)
    requires n <= |chunks| && After(u, chunks[..n]).failed.Some?
    ensures After(u, chunks) == After(u, chunks[..n])
  {
    RunConcat(u, START, chunks[..n], chunks[n..]);
    FailedStays(u, After(u, chunks[..n]), chunks[n..]);
    assert chunks[..n] + chunks[n..] == chunks;
  }

  lemma AfterNext(u: Upstream, chunks: seq<Bytes>, i: nat)
    requires i < |chunks|
    ensures After(u, chunks[..i + 1]) == StepRun(u, After(u, chunks[..i]), chunks[i])
  {
    assert chunks[..i + 1][..i] == chunks[..i];
  }

  method EndGate(u: Upstream, gate: SameWireGate) returns (sent: Bytes)
    requires gate.Valid() && gate.u == u
    modifies gate, gate.reader
    ensures sent == EndBytes(u, EndOf(u, old(gate.State())))
  {
    var end := gate.Finish();
    match end
    case Done(tail) => sent := tail;
    case Replace(message) => sent := FormatSse(u.ErrorFrame(message));
    case Append(tail, message) =>
      sent := FormatSse(u.ErrorFrame(message));
      sent := tail + sent;
    case Promote(bytes) => sent := bytes;
  }

  method PassthroughSse(u: Upstream, chunks: seq<Bytes>, end: Option<string>) returns (sent: Bytes)
    ensures sent == Driven(u, chunks, end)
  {
    hide PushOf, EndOf, Format;
    var gate := new SameWireGate(u);
    sent := [];
    for i := 0 to |chunks|
      invariant gate.Valid() && gate.u == u && fresh(gate) && fresh(gate.reader)
      invariant After(u, chunks[..i]) == Run(gate.State(), sent, None)
    {
      AfterNext(u, chunks, i);
      var pushed := gate.Push(chunks[i]);
      match pushed
      case Hold =>
      case Forward(bytes) => sent := sent + bytes;
      case Fail(message) =>
        RefusedAt(u, chunks, i + 1);
        var error := FormatSse(u.ErrorFrame(message));
        return sent + error;
    }
    assert chunks[..|chunks|] == chunks;
    var closing;
    if end.Some? {
      closing := FormatSse(u.ErrorFrame(end.value));
    } else {
      closing := EndGate(u, gate);
    }
    sent := sent + closing;
  }

  // ---- a frame printed behind an open reader ----

  lemma {:induction false} ScanDataAndBlank(d: Reader, lines: seq<Bytes>)
    requires d.buffer == [] && lines != [] && forall v | v in lines :: IsLine(v)
    ensures Scan(d, DataLines(lines) + [LF]) == Scanned(FRESH, [Frame(d.event, Join(d.data + ChompAll(lines)))])
  {
    ScanDataLines(d, lines);
    var r := Scan(d, DataLines(lines)).reader;
    ScanConcat(d, DataLines(lines), [LF]);
    ScanWholeLine(r, []);
    assert [] + [LF] == [LF];
    var closed := [Frame(d.event, Join(d.data + ChompAll(lines)))];
    assert [] + closed == closed;
  }

  lemma {:induction false} ScanFromOpen(d: Reader, f: Frame)
    requires d.buffer == [] && IsTextFrame(f) && IsClean(f)
    ensures Scan(d, DataLines(Pieces(f.data)) + [LF]) == Scanned(FRESH, [Frame(d.event, Join(d.data + Pieces(f.data)))])
  {
    assert f.data + [] == f.data;
    SplitIntoLines(f.data, []);
    ChompAllClean(Pieces(f.data));
    ScanDataAndBlank(d, Pieces(f.data));
  }

  lemma {:induction false} JoinLonger(a: seq<Bytes>, b: seq<Bytes>)
    requires b != []
    ensures |Join(a + b)| >= |Join(b)| && (a != [] ==> |Join(a + b)| > |Join(b)|)
    decreases |b|
  {
    if a == [] {
      assert a + b == b;
    } else {
      var n := |b| - 1;
      assert (a + b)[..|a + b| - 1] == a + b[..n];
      if n > 0 {
        JoinLonger(a, b[..n]);
      }
    }
  }

  lemma {:induction false} GluedLine(buffer: Bytes, event: Bytes)
    requires IsLine(event) && !EndsInCr(event)
    ensures LineOf(buffer + (EVENT + [COLON, SPACE] + event)) == Lossy(buffer + EVENT) + [COLON] + ([SPACE] + event)
  {
    var head := buffer + EVENT;
    var x := buffer + (EVENT + [COLON, SPACE] + event);
    assert Chomp(x) == x;
    assert x == head + [COLON] + ([SPACE] + event);
    LossySplitsAtAscii(head, COLON, [SPACE] + event);
    LossySplitsAtAscii([], SPACE, event);
    assert [] + [SPACE] + event == [SPACE] + event;
  }

  lemma {:induction false} LongLineLongValue(line: Bytes, event: Bytes)
    requires |line| > |event| + 7 && Field(line).0 == EVENT
    ensures Field(line).1 != event
  {
  }

  function EventText(event: Bytes): Bytes {
    EVENT + [COLON, SPACE] + event
  }

  /** A line that opens neither an event nor data. */
  predicate PassesOver(line: Bytes) {
    line != [] && (line[0] == COLON || (Field(line).0 != EVENT && Field(line).0 != DATA))
  }

  /** No data is open, and the unfinished line, if there is one, swallows an event line that would change nothing. */
  predicate Admits(d: Reader, event: Bytes) {
    d.data == [] && (d.buffer == [] || (d.event == Some(event) && PassesOver(LineOf(d.buffer + EventText(event)))))
  }

  lemma {:induction false} PassedOver(r: Reader, line: Bytes)
    requires line != []
    ensures ReadLine(r, line).1.None?
    ensures var next := ReadLine(r, line).0;
            && next.buffer == r.buffer
            && if PassesOver(line) then next.event == r.event && next.data == r.data
               else if Field(line).0 == EVENT then next.event == Some(Field(line).1) && next.data == r.data
               else next.data == r.data + [Field(line).1]
  {
  }

  /** An event line behind an open reader. */
  lemma {:induction false} EventLineBehind(d: Reader, event: Bytes)
    requires IsTextReader(d) && IsLine(event) && !EndsInCr(event)
    ensures var s := Scan(d, FieldLine(EVENT, event));
            && s.frames == [] && s.reader.buffer == []
            && (s.reader.event == Some(event) && s.reader.data == [] <==> Admits(d, event))
  {
    hide Scan, ReadLine, PassesOver, Field, LineOf;
    if d.buffer == [] {
      ScanFieldLine(d, EVENT, event);
      assert Chomp(event) == event;
    } else {
      var x := EventText(event);
      var line := LineOf(d.buffer + x);
      LineFed(d, x);
      GluedLine(d.buffer, event);
      LossyNeverShrinks(d.buffer + EVENT);
      PassedOver(d.(buffer := []), line);
      GluedValue(line, event);
    }
  }

  lemma {:induction false} GluedValue(line: Bytes, event: Bytes)
    requires |line| > |event| + 7
    ensures !PassesOver(line) && Field(line).0 == EVENT ==> Field(line).1 != event
  {
    if Field(line).0 == EVENT {
      LongLineLongValue(line, event);
    }
  }

  /**
   A frame with an event name printed behind any reader closes one frame, and that is the printed one exactly when no data
   is open there and no line, or one that swallows the event line while the open event has that very name.
   */
  lemma {:induction false} AppendedFrameReads(d: Reader, f: Frame)
    requires IsTextReader(d) && IsTextFrame(f) && IsClean(f) && f.event.Some?
    ensures Scan(d, Format(f)).reader == FRESH && |Scan(d, Format(f)).frames| == 1
    ensures Scan(d, Format(f)).frames == [f] <==> Admits(d, f.event.value)
  {
    hide Scan, Admits, IsTextReader;
    var lines := Pieces(f.data);
    var e := FieldLine(EVENT, f.event.value);
    JoinSplitFrom(f.data, []);
    assert f.data + [] == f.data;
    ConcatAssoc(e, DataLines(lines), [LF]);
    ScanConcat(d, e, DataLines(lines) + [LF]);
    EventLineBehind(d, f.event.value);
    var r := Scan(d, e).reader;
    ScanFromOpen(r, f);
    JoinLonger(r.data, lines);
    assert [] + Scan(r, DataLines(lines) + [LF]).frames == Scan(r, DataLines(lines) + [LF]).frames;
    assert [] + lines == lines;
  }

  /** The error printed behind any bytes is seen exactly when their reader admits it. */
  lemma {:induction false} ErrorBehind(u: Upstream, bytes: Bytes, message: string)
    requires ErrorsPrintable(u)
    ensures var r := Scan(FRESH, bytes).reader;
            (Scan(FRESH, bytes + u.ErrorBytes(message)).frames == Scan(FRESH, bytes).frames + [u.ErrorFrame(message)])
              == Admits(r, u.ErrorFrame(message).event.value)
  {
    hide Scan, Admits, Format, ErrorsPrintable;
    var s := Scan(FRESH, bytes);
    ScanConcat(FRESH, bytes, u.ErrorBytes(message));
    ScanEmitsText(FRESH, bytes);
    ErrorIsClean(u, message);
    AppendedFrameReads(s.reader, u.ErrorFrame(message));
    var more := Scan(s.reader, u.ErrorBytes(message)).frames;
    assert (s.frames + more)[|s.frames|..] == more;
    assert (s.frames + [u.ErrorFrame(message)])[|s.frames|..] == [u.ErrorFrame(message)];
  }

  // ---- behind a vendor error, on every wire ----

  lemma FreshAdmits(event: Bytes)
    ensures Admits(FRESH, event)
  {
  }

  /** Once a vendor error was seen every error of the driver is seen, whatever the body breaks off in. */
  lemma {:induction false} ErrorAfterVendorError(u: Upstream, chunks: seq<Bytes>, end: Option<string>)
    requires ErrorsPrintable(u) && WrappedIsPrinted(u) && After(u, chunks).gate.sawVendorError
    requires After(u, chunks).failed.None? && (end.None? ==> EndOf(u, After(u, chunks).gate).Append?)
    ensures var run := After(u, chunks);
            var (tail, message) := match end
              case Some(m) => ([], m)
              case None => (EndOf(u, run.gate).tail, EndOf(u, run.gate).message);
            Scan(FRESH, Driven(u, chunks, end)).frames == Scan(FRESH, run.sent + tail).frames + [u.ErrorFrame(message)]
  {
    hide Scan, Admits, Format, ErrorsPrintable, WrappedIsPrinted, After, EndOf;
    var run := After(u, chunks);
    var (tail, message) := match end
      case Some(m) => ([], m)
      case None => (EndOf(u, run.gate).tail, EndOf(u, run.gate).message);
    NothingHeldAfterError(u, chunks);
    ClosedAfterError(u, chunks);
    TailCloses(u, run, end);
    FreshAdmits(u.ErrorFrame(message).event.value);
    ErrorBehind(u, run.sent + tail, message);
    ConcatAssoc(run.sent, tail, u.ErrorBytes(message));
    assert run.sent + [] == run.sent;
  }

  lemma {:induction false} TailCloses(u: Upstream, run: Run, end: Option<string>)
    requires HoldsNoMore(run.gate) && Scan(FRESH, run.sent).reader == FRESH && (end.None? ==> EndOf(u, run.gate).Append?)
    ensures Scan(FRESH, run.sent + if end.Some? then [] else EndOf(u, run.gate).tail).reader == FRESH
  {
    hide Scan, Format, EndOf;
    assert run.sent + [] == run.sent;
    EndAfterError(u, run.gate);
    if end.None? && EndOf(u, run.gate).tail != [] {
      var f := EndOfBody(run.gate.reader).1.value.value;
      FormatAllOne(f);
      PrintingCloses(run.sent, [f]);
    }
  }

  // ---- wires other than Responses ----

  /** An error behind a body that passed unchanged. */
  lemma {:induction false} AppendedBehindBody(u: Upstream, chunks: seq<Bytes>)
    requires !u.responses && ErrorsPrintable(u) && After(u, chunks).failed.None?
    requires !After(u, chunks).gate.sawVendorError && EndOf(u, After(u, chunks).gate).Append?
    ensures var s, error := Scan(FRESH, Flatten(chunks)), u.ErrorFrame(EndOf(u, After(u, chunks).gate).message);
            (Scan(FRESH, Driven(u, chunks, None)).frames == s.frames + [error]) == Admits(s.reader, error.event.value)
  {
    hide Scan, Admits, Format, ErrorsPrintable, EndOf, Flatten, After;
    var end := EndOf(u, After(u, chunks).gate);
    PassesWholeBody(u, chunks);
    ConcatAssoc(After(u, chunks).sent, end.tail, u.ErrorBytes(end.message));
    ErrorBehind(u, Flatten(chunks), end.message);
  }

  /**
   The error appended to a body that ended too early and showed no vendor error is seen exactly when the body did not break
   off inside a line or inside the data of a frame, or broke off inside a line that swallows the start of the error.
   */
  lemma {:induction false} AppendedErrorIsSeen(u: Upstream, chunks: seq<Bytes>)
    requires !u.responses && ErrorsPrintable(u) && Break(FRESH, Flatten(chunks)).None? && OpensInTime(chunks)
    requires !ShowsError(u, Scan(FRESH, Flatten(chunks)).frames) && EndOf(u, After(u, chunks).gate).Append?
    ensures var s, error := Scan(FRESH, Flatten(chunks)), u.ErrorFrame(EndOf(u, After(u, chunks).gate).message);
            (Scan(FRESH, Driven(u, chunks, None)).frames == s.frames + [error]) == Admits(s.reader, error.event.value)
  {
    hide Scan, Admits, ErrorsPrintable, EndOf, Flatten, After, OpensInTime, ShowsError;
    AcceptedIffInTime(u, chunks);
    VendorErrorIffShown(u, chunks);
    AppendedBehindBody(u, chunks);
  }

  lemma {:induction false} TransportBehindBody(u: Upstream, chunks: seq<Bytes>, message: string)
    requires !u.responses && ErrorsPrintable(u) && After(u, chunks).failed.None? && !After(u, chunks).gate.sawVendorError
    ensures var s, sent, error := Scan(FRESH, Flatten(chunks)), Driven(u, chunks, Some(message)), u.ErrorFrame(message);
            if After(u, chunks).gate.sawFrame then (Scan(FRESH, sent).frames == s.frames + [error]) == Admits(s.reader, error.event.value)
            else Scan(FRESH, sent) == Scanned(FRESH, [error])
  {
    hide Scan, Admits, Format, ErrorsPrintable, Flatten, After;
    var run := After(u, chunks);
    PassesBytesThrough(u, chunks);
    assert run.sent + [] == run.sent && [] + u.ErrorBytes(message) == u.ErrorBytes(message);
    ErrorBehind(u, Flatten(chunks), message);
    ScanError(u, message);
  }

  /** A transport error is all that is sent until a frame has closed; after that it is seen under the same condition. */
  lemma {:induction false} TransportErrorIsSeen(u: Upstream, chunks: seq<Bytes>, message: string)
    requires !u.responses && ErrorsPrintable(u) && Break(FRESH, Flatten(chunks)).None? && OpensInTime(chunks)
    requires !ShowsError(u, Scan(FRESH, Flatten(chunks)).frames)
    ensures var s, sent, error := Scan(FRESH, Flatten(chunks)), Driven(u, chunks, Some(message)), u.ErrorFrame(message);
            if s.frames == [] then Scan(FRESH, sent) == Scanned(FRESH, [error])
            else (Scan(FRESH, sent).frames == s.frames + [error]) == Admits(s.reader, error.event.value)
  {
    hide Scan, Admits, ErrorsPrintable, Flatten, After, OpensInTime, ShowsError;
    AcceptedCounts(u, chunks);
    VendorErrorIffShown(u, chunks);
    TransportBehindBody(u, chunks, message);
  }

  /** One read: a frame, and a data line that breaks off before its line feed. */
  function CutOff(a: Frame, d: Bytes): seq<Bytes> {
    [Format(a) + DataText(d)]
  }

  lemma {:induction false} GateOnCutOff(u: Upstream, a: Frame, d: Bytes)
    requires !u.responses && IsTextFrame(a) && IsClean(a) && !u.wrapped(a.data) && !u.EndsStream(a)
    requires IsLine(d) && Break(FRESH, Format(a) + DataText(d)).None? && |Format(a) + DataText(d)| <= MAX_UPSTREAM_BODY
    ensures var run := StepRun(u, START, Format(a) + DataText(d));
            && run.failed.None? && run.gate.sawFrame && !run.gate.sawTerminal && !run.gate.dropRest && !run.gate.sawVendorError
            && run.gate.reader == Reader(DataText(d), None, [], false) && run.gate.held == []
  {
    hide Scan, Break, Format, FormatAll, NotDone, FirstFailure, AnyWrapped;
    ReadsOpenData(a, d);
    NoFailureElsewhere(u, [a]);
    assert [a][..0] == [];
    OneFrame(u, a);
    assert AnyEnds(u, [a]) == (AnyEnds(u, []) || u.EndsStream(a));
  }

  lemma {:induction false} EndOfCutOff(d: Bytes)
    requires IsLine(d) && !EndsInCr(d) && |d| <= MAX_PENDING
    ensures EndOfBody(Reader(DataText(d), None, [], false)).1 == Ok(Some(Frame(None, d)))
  {
    hide IsText;
    DataTextIsText(d);
    TextIsKept(DataText(d));
    FieldOfPrinted(DATA, d);
    assert DataText(d) == DATA + [COLON, SPACE] + d;
    assert [] + [d] == [d];
  }

  lemma TextIsKept(s: Bytes)
    requires IsText(s) && !EndsInCr(s)
    ensures TrimEndCr(Lossy(s)) == s
  {
  }

  lemma {:induction false} GluedEventText(d: Bytes, event: Bytes)
    requires IsLine(d) && IsLine(event) && !EndsInCr(event)
    ensures LineOf(DataText(d) + EventText(event)) == DATA + [COLON, SPACE] + (d + EventText(event))
  {
    hide IsText, Lossy, LineOf;
    DataTextIsText(d);
    AsciiIsText(EVENT);
    LossyJoinsBeforeAscii(DataText(d), EVENT);
    GluedLine(DataText(d), event);
    LossyOfText(DataText(d));
    LossyOfText(EVENT);
    assert DataText(d) + EVENT + [COLON] + ([SPACE] + event) == DATA + [COLON, SPACE] + (d + EventText(event));
  }

  lemma {:induction false} EventBehindData(d: Bytes, event: Bytes)
    requires IsLine(d) && IsLine(event) && !EndsInCr(event)
    ensures Scan(Reader(DataText(d), None, [], false), EventText(event) + [LF])
         == Scanned(Reader([], None, [d + EventText(event)], true), [])
  {
    hide Scan, IsText, LineOf, DataText;
    var r, v := Reader(DataText(d), None, [], false), d + EventText(event);
    GluedEventText(d, event);
    FieldOfPrinted(DATA, v);
    LineFed(r, EventText(event));
    assert [] + [v] == [v];
  }

  /** The error is read as two more lines of the data that was cut off. */
  lemma {:induction false} ErrorBehindData(d: Bytes, f: Frame)
    requires IsLine(d) && f.event.Some? && LF !in f.data && IsTextFrame(f) && IsClean(f)
    ensures Scan(Reader(DataText(d), None, [], false), Format(f))
         == Scanned(FRESH, [Frame(None, d + EventText(f.event.value) + [LF] + f.data)])
  {
    var event, v := f.event.value, d + EventText(f.event.value);
    var open := Reader([], None, [v], true);
    hide Scan, IsText, DataText, DataLines, IsClean, IsTextFrame;
    EventBehindData(d, event);
    SplitJoin([f.data]);
    assert Join([f.data]) == f.data;
    ScanFromOpen(open, f);
    ConcatAssoc(EventText(event) + [LF], DataLines([f.data]), [LF]);
    ScanConcat(Reader(DataText(d), None, [], false), EventText(event) + [LF], DataLines([f.data]) + [LF]);
    assert [v] + [f.data] == [v, f.data];
    assert [v, f.data][..1] == [v];
    assert [] + [Frame(None, v + [LF] + f.data)] == [Frame(None, v + [LF] + f.data)];
  }

  lemma LossyOfText(s: Bytes)
    requires IsText(s)
    ensures Lossy(s) == s
  {
  }

  lemma {:induction false} EndInData(u: Upstream, g: GateState, d: Bytes)
    requires !u.responses && IsLine(d) && !EndsInCr(d) && |d| <= MAX_PENDING && !u.EndsStream(Frame(None, d))
    requires g.reader == Reader(DataText(d), None, [], false) && g.held == []
    requires g.sawFrame && !g.sawTerminal && !g.dropRest && !g.sawVendorError
    ensures EndOf(u, g) == Append([], INCOMPLETE)
  {
    hide EndOfBody, DataText, IsText;
    EndOfCutOff(d);
  }

  lemma {:induction false} CutOffEnds(u: Upstream, a: Frame, d: Bytes)
    requires !u.responses && IsTextFrame(a) && IsClean(a) && !u.wrapped(a.data) && !u.EndsStream(a)
    requires IsLine(d) && !EndsInCr(d) && !u.EndsStream(Frame(None, d))
    requires Break(FRESH, Format(a) + DataText(d)).None? && |Format(a) + DataText(d)| <= MAX_UPSTREAM_BODY
    ensures var chunks := CutOff(a, d);
            && EndOf(u, After(u, chunks).gate) == Append([], INCOMPLETE)
            && Driven(u, chunks, None) == Format(a) + DataText(d) + u.ErrorBytes(INCOMPLETE)
            && Flatten(chunks) == Format(a) + DataText(d)
  {
    assert |DataText(d)| == |d| + 6;
    hide Scan, Break, Format, EndOf, StepRun, DataText, IsText, IsClean, IsTextFrame, Driven;
    var x := Format(a) + DataText(d);
    var chunks: seq<Bytes> := [x];
    assert chunks[..0] == [];
    OneChunk(x);
    assert After(u, chunks[..0]) == START && After(u, chunks) == StepRun(u, START, chunks[0]);
    GateOnCutOff(u, a, d);
    EndInData(u, After(u, chunks).gate, d);
    CutOffPasses(u, chunks);
  }

  /** A body that breaks off in a data line: the appended error is lost in that frame. */
  lemma {:induction false} CutOffErrorIsGlued(u: Upstream, a: Frame, d: Bytes)
    requires !u.responses && ErrorsPrintable(u) && IsTextFrame(a) && IsClean(a) && !u.wrapped(a.data) && !u.EndsStream(a)
    requires IsLine(d) && !EndsInCr(d) && !u.EndsStream(Frame(None, d))
    requires Break(FRESH, Format(a) + DataText(d)).None? && |Format(a) + DataText(d)| <= MAX_UPSTREAM_BODY
    ensures var chunks, error := CutOff(a, d), u.ErrorFrame(INCOMPLETE);
            && EndOf(u, After(u, chunks).gate) == Append([], INCOMPLETE)
            && Scan(FRESH, Flatten(chunks)).frames == [a]
            && Scan(FRESH, Driven(u, chunks, None))
               == Scanned(FRESH, [a, Frame(None, d + EventText(error.event.value) + [LF] + error.data)])
  {
    hide Scan, Break, Format, ErrorsPrintable, EndOf, After, Driven, Flatten, DataText, IsText, IsClean, EventText;
    var x, error := Format(a) + DataText(d), u.ErrorFrame(INCOMPLETE);
    CutOffEnds(u, a, d);
    ReadsOpenData(a, d);
    ErrorIsClean(u, INCOMPLETE);
    ErrorIsOneLine(u, INCOMPLETE);
    ErrorBehindData(d, error);
    ScanConcat(FRESH, x, Format(error));
    var g := Frame(None, d + EventText(error.event.value) + [LF] + error.data);
    assert [a] + [g] == [a, g];
  }

  lemma ErrorIsOneLine(u: Upstream, message: string)
    requires ErrorsPrintable(u)
    ensures LF !in u.ErrorFrame(message).data
  {
  }

  lemma {:induction false} CutOffPasses(u: Upstream, chunks: seq<Bytes>)
    requires !u.responses && After(u, chunks).failed.None? && !After(u, chunks).gate.sawVendorError
    requires EndOf(u, After(u, chunks).gate) == Append([], INCOMPLETE)
    ensures Driven(u, chunks, None) == Flatten(chunks) + u.ErrorBytes(INCOMPLETE)
  {
    hide EndOf, Format, After;
    PassesWholeBody(u, chunks);
    var run := After(u, chunks);
    assert run.sent + [] == run.sent;
    assert [] + u.ErrorBytes(INCOMPLETE) == u.ErrorBytes(INCOMPLETE);
  }

  // ---- the Responses wire ----

  /** What a reader of the output has seen is closed, so an error behind it is always seen. */
  lemma {:induction false} ErrorAfterSync(u: Upstream, chunks: seq<Bytes>, message: string)
    requires ErrorsPrintable(u) && InSync(u, chunks)
    ensures Sees(u, After(u, chunks).sent + u.ErrorBytes(message),
                 Expected(u, Scan(FRESH, Flatten(chunks)).frames) + [u.ErrorFrame(message)])
  {
    hide Scan, Sees, Leads, ErrorsPrintable, After, Flatten;
    ErrorIsSeen(u, message);
    SeesBoth(u, After(u, chunks).sent, u.ErrorBytes(message),
             Expected(u, Scan(FRESH, Flatten(chunks)).frames), [u.ErrorFrame(message)]);
  }

  /** A transport error is seen behind all that is to be seen of the body: behind a failed frame it is a second error. */
  lemma {:induction false} TransportErrorIsLast(u: Upstream, chunks: seq<Bytes>, message: string)
    requires Readable(u, Flatten(chunks)) && OpensInTime(chunks) && NeverStrands(u, chunks) && NeverMangles(u, chunks)
    ensures Sees(u, Driven(u, chunks, Some(message)),
                 Expected(u, Scan(FRESH, Flatten(chunks)).frames) + [u.ErrorFrame(message)])
  {
    hide Scan, Sees, ErrorsPrintable, After, Flatten, NeverStrands, NeverMangles, OpensInTime, InSync, Expected;
    InSyncAtEnd(u, chunks);
    AcceptedIffInTime(u, chunks);
    ErrorAfterSync(u, chunks, message);
  }

  /** So is the error for a refused chunk, which ends the output; after a failed frame no chunk is refused. */
  lemma {:induction false} RefusedChunkIsSeen(u: Upstream, chunks: seq<Bytes>, c: Bytes, later: seq<Bytes>, end: Option<string>)
    requires Readable(u, Flatten(chunks)) && OpensInTime(chunks) && NeverStrands(u, chunks) && NeverMangles(u, chunks)
    requires StepRun(u, After(u, chunks), c).failed.Some?
    ensures var frames, message := Scan(FRESH, Flatten(chunks)).frames, StepRun(u, After(u, chunks), c).failed.value;
            && FirstFailure(u, frames).None?
            && Sees(u, Driven(u, chunks + [c] + later, end), frames + [u.ErrorFrame(message)])
  {
    hide Scan, Sees, ErrorsPrintable, Flatten, NeverStrands, NeverMangles, OpensInTime, InSync, FirstFailure;
    var all := chunks + [c] + later;
    InSyncAtEnd(u, chunks);
    AcceptedIffInTime(u, chunks);
    assert all[..|chunks| + 1] == chunks + [c] && all[..|chunks|] == chunks;
    AfterNext(u, all, |chunks|);
    RefusedAt(u, all, |chunks| + 1);
    RefusedKeepsSent(u, After(u, chunks), c);
    ErrorAfterSync(u, chunks, StepRun(u, After(u, chunks), c).failed.value);
  }

  lemma {:induction false} RefusedKeepsSent(u: Upstream, run: Run, c: Bytes)
    requires run.failed.None? && StepRun(u, run, c).failed.Some?
    ensures !run.gate.dropRest && StepRun(u, run, c).sent == run.sent
  {
    hide Scan, Break, FormatAll, NotDone, FirstFailure, AnyWrapped, AnyEnds;
  }

  /** The held bytes are sent ahead of the error appended to a body that ended too early. */
  lemma {:induction false} AppendKeepsHeld(u: Upstream, g: GateState)
    requires !g.sawVendorError && !g.dropRest && EndOf(u, g).Append?
    ensures EndOf(u, g).tail == g.held
  {
    hide EndOfBody;
  }

  lemma {:induction false} SameFrameShown(u: Upstream, a: seq<Frame>, b: seq<Frame>, g: Frame, f: Frame)
    requires Visible(u, a) == Visible(u, b) && !IsBlank(f) && !u.IsDone(f)
    ensures Visible(u, a + [g]) == Visible(u, b + [f]) <==> g == f
  {
    hide Visible;
    VisibleConcat(u, a, [g]);
    VisibleConcat(u, b, [f]);
    VisibleOne(u, g);
    VisibleOne(u, f);
    var x := Visible(u, b);
    assert (x + Visible(u, [g]))[|x|..] == Visible(u, [g]) && (x + [f])[|x|..] == [f];
  }

  /** `Admits` does not look at the flag in which a reader and one that follows it differ. */
  lemma {:induction false} FollowerAdmits(d: Reader, r: Reader, event: Bytes)
    requires Follows(d, r)
    ensures Admits(d, event) == Admits(r, event)
  {
  }

  /** On the Responses wire the error appended to such a body is seen under the condition of the other wires. */
  lemma {:induction false} AppendedErrorShows(u: Upstream, chunks: seq<Bytes>)
    requires Readable(u, Flatten(chunks)) && OpensInTime(chunks) && NeverStrands(u, chunks) && NeverMangles(u, chunks)
    requires !After(u, chunks).gate.sawVendorError && EndOf(u, After(u, chunks).gate).Append?
    ensures var s, error := Scan(FRESH, Flatten(chunks)), u.ErrorFrame(EndOf(u, After(u, chunks).gate).message);
            (Visible(u, Scan(FRESH, Driven(u, chunks, None)).frames) == Visible(u, s.frames + [error]))
              == Admits(s.reader, error.event.value)
  {
    hide Scan, ErrorsPrintable, Flatten, NeverStrands, NeverMangles, OpensInTime, After, FirstFailure, Admits, EndOf, Format, Sees, Leads;
    var run, s, message := After(u, chunks), Scan(FRESH, Flatten(chunks)), EndOf(u, After(u, chunks).gate).message;
    InSyncAtEnd(u, chunks);
    AcceptedIffInTime(u, chunks);
    NothingHeldAfterError(u, chunks);
    ErrorBehindHeld(u, run, s, message);
    AppendKeepsHeld(u, run.gate);
    ConcatAssoc(run.sent, run.gate.held, u.ErrorBytes(message));
  }

  lemma ErrorCarries(u: Upstream, message: string)
    requires ErrorsPrintable(u)
    ensures !IsBlank(u.ErrorFrame(message)) && !u.IsDone(u.ErrorFrame(message))
  {
  }

  lemma {:induction false} ErrorBehindHeld(u: Upstream, run: Run, s: Scanned, message: string)
    requires ErrorsPrintable(u) && Sees(u, run.sent, s.frames) && Leads(run.gate.held, s.reader)
    ensures (Visible(u, Scan(FRESH, run.sent + (run.gate.held + u.ErrorBytes(message))).frames)
               == Visible(u, s.frames + [u.ErrorFrame(message)]))
              == Admits(s.reader, u.ErrorFrame(message).event.value)
  {
    hide Scan, Admits, Format, Visible, IsTextReader, ErrorsPrintable, IsTextFrame, IsClean, Follows;
    var d, error, held := Scan(FRESH, run.gate.held).reader, u.ErrorFrame(message), run.gate.held;
    ScanEmitsText(FRESH, held);
    ErrorIsClean(u, message);
    AppendedFrameReads(d, error);
    FollowerAdmits(d, s.reader, error.event.value);
    ScanConcat(FRESH, held, u.ErrorBytes(message));
    ScanConcat(FRESH, run.sent, held + u.ErrorBytes(message));
    var more := Scan(d, u.ErrorBytes(message)).frames;
    assert [] + more == more && more == [more[0]];
    ErrorCarries(u, message);
    SameFrameShown(u, Scan(FRESH, run.sent).frames, s.frames, more[0], error);
  }
}
