/** What vendor errors do to the output, on every wire: the frames that are printed again, and what is printed behind them. */
module GateVendor {
  import opened Utf8
  import opened Sse
  import opened SseFormat
  import opened Gate
  import opened GateRuns
  import opened GateStrands

  // ---- a printed frame closes whatever is open ----

  lemma {:induction false} FeedEndsLine(d: Reader, x: Bytes)
    ensures Scan(d, x + [LF]).reader.buffer == []
  {
    ScanConcat(d, x, [LF]);
    var mid := Scan(d, x).reader;
    assert [LF][1..] == [];
    ReadLineIgnoresBuffer(mid.(buffer := []), LineOf(mid.buffer));
  }

  /** Whatever stands open: behind a printed frame the reader is fresh. */
  lemma {:induction false} FormatCloses(d: Reader, f: Frame)
    requires IsTextReader(d)
    ensures Scan(d, Format(f)).reader == FRESH
  {
    hide Scan, IsTextReader, TakeOpen;
    var lines := Pieces(f.data);
    var n := |lines| - 1;
    var x := EventLine(f.event) + DataLines(lines[..n]) + (DATA + [COLON, SPACE] + lines[n]);
    assert EventLine(f.event) + DataLines(lines) == x + [LF];
    FeedEndsLine(d, x);
    ScanEmitsText(d, x + [LF]);
    ScanConcat(d, x + [LF], [LF]);
    FeedCloses(Scan(d, x + [LF]).reader);
    ClosedByFeed(Scan(d, x + [LF]).reader);
  }

  lemma ClosedByFeed(r: Reader)
    requires IsTextReader(r) && r.buffer == []
    ensures TakeOpen(r).0 == FRESH
  {
  }

  lemma {:induction false} FormatAllCloses(d: Reader, frames: seq<Frame>)
    requires IsTextReader(d)
    ensures Scan(d, FormatAll(frames)).reader == if frames == [] then d else FRESH
    decreases |frames|
  {
    hide Scan, IsTextReader, Format;
    if frames == [] {
      NothingScanned(d);
    } else {
      var n := |frames| - 1;
      ScanEmitsText(d, FormatAll(frames[..n]));
      ScanConcat(d, FormatAll(frames[..n]), Format(frames[n]));
      FormatCloses(Scan(d, FormatAll(frames[..n])).reader, frames[n]);
    }
  }

  lemma {:induction false} PrintingCloses(sent: Bytes, frames: seq<Frame>)
    ensures Scan(FRESH, sent + FormatAll(frames)).reader == if frames == [] then Scan(FRESH, sent).reader else FRESH
  {
    hide Scan, FormatAll;
    ScanEmitsText(FRESH, sent);
    ScanConcat(FRESH, sent, FormatAll(frames));
    FormatAllCloses(Scan(FRESH, sent).reader, frames);
  }

  // ---- every run that has seen one ----

  /** A vendor error is a JSON object, so never the terminator. */
  ghost predicate WrappedIsPrinted(u: Upstream) {
    forall f: Frame :: u.wrapped(f.data) ==> !u.IsDone(f)
  }

  lemma {:induction false} WrappedIsKept(u: Upstream, frames: seq<Frame>)
    requires WrappedIsPrinted(u) && AnyWrapped(u, frames)
    ensures NotDone(u, frames) != []
    decreases |frames|
  {
    var n := |frames| - 1;
    if AnyWrapped(u, frames[..n]) {
      WrappedIsKept(u, frames[..n]);
    } else {
      assert u.wrapped(frames[n].data);
    }
  }

  lemma {:induction false} StepPrints(u: Upstream, run: Run, c: Bytes) returns (printed: seq<Frame>)
    requires WrappedIsPrinted(u) && StepRun(u, run, c).gate.sawVendorError
    ensures StepRun(u, run, c).sent == run.sent + FormatAll(printed)
    ensures printed == [] ==> run.gate.sawVendorError
  {
    hide Scan, Break, FormatAll, NotDone, FirstFailure, AnyWrapped, AnyEnds, WrappedIsPrinted, Format;
    NothingPrinted(u);
    assert run.sent + [] == run.sent;
    var frames := Scan(run.gate.reader, c).frames;
    if run.failed.Some? || run.gate.dropRest || Break(run.gate.reader, c).Some? || (!run.gate.sawFrame && |run.gate.held| + |c| > MAX_UPSTREAM_BODY) {
      printed := [];
    } else if FirstFailure(u, frames).Some? {
      var (k, message) := FirstFailure(u, frames).value;
      FormatAllConcat(NotDone(u, frames[..k]), [u.ErrorFrame(message)]);
      FormatAllOne(u.ErrorFrame(message));
      printed := NotDone(u, frames[..k]) + [u.ErrorFrame(message)];
    } else if frames == [] {
      printed := [];
    } else {
      printed := NotDone(u, frames);
      if AnyWrapped(u, frames) {
        WrappedIsKept(u, frames);
      }
    }
  }

  /** Once a vendor error was seen, what has been sent is closed, on every wire. */
  lemma {:induction false} ClosedAfterError(u: Upstream, chunks: seq<Bytes>)
    requires WrappedIsPrinted(u) && After(u, chunks).gate.sawVendorError
    ensures Scan(FRESH, After(u, chunks).sent).reader == FRESH
    decreases |chunks|
  {
    hide Scan, Break, PushOf, WrappedIsPrinted, FormatAll;
    if chunks != [] {
      var n := |chunks| - 1;
      var before := After(u, chunks[..n]);
      var printed := StepPrints(u, before, chunks[n]);
      PrintingCloses(before.sent, printed);
      if before.gate.sawVendorError {
        ClosedAfterError(u, chunks[..n]);
      }
    }
  }

  // ---- wires other than Responses: the read that brings the first vendor error ----

  /** What was forwarded before is the body, or nothing while no frame has closed; the frames of the read are printed behind it. */
  lemma {:induction false} FirstErrorIsPrinted(u: Upstream, chunks: seq<Bytes>, c: Bytes)
    requires !u.responses && Break(FRESH, Flatten(chunks + [c])).None? && OpensInTime(chunks + [c])
    requires var before := Scan(FRESH, Flatten(chunks));
             !ShowsError(u, before.frames) && AnyWrapped(u, Scan(before.reader, c).frames)
    ensures var before := Scan(FRESH, Flatten(chunks));
            After(u, chunks + [c]).sent
            == (if before.frames == [] then [] else Flatten(chunks)) + FormatAll(NotDone(u, Scan(before.reader, c).frames))
  {
    hide Scan, Break, FormatAll, NotDone, FirstFailure, AnyWrapped, AnyEnds, Flatten, OpensInTime;
    var all := chunks + [c];
    assert all[..|all| - 1] == chunks;
    PrefixReads(all);
    OpensBefore(all);
    AcceptedCounts(u, chunks);
    VendorErrorIffShown(u, chunks);
    PassesBytesThrough(u, chunks);
    NoFailureElsewhere(u, Scan(Scan(FRESH, Flatten(chunks)).reader, c).frames);
    AcceptedCounts(u, all);
    var run := After(u, chunks);
    assert run.sent + [] == run.sent;
    PrintsWrapped(u, run, c);
  }

  lemma OpensBefore(chunks: seq<Bytes>)
    requires chunks != [] && OpensInTime(chunks)
    ensures OpensInTime(chunks[..|chunks| - 1])
  {
  }

  lemma {:induction false} NoFailureElsewhere(u: Upstream, frames: seq<Frame>)
    requires !u.responses
    ensures FirstFailure(u, frames) == None
    decreases |frames|
  {
    if frames != [] {
      NoFailureElsewhere(u, frames[..|frames| - 1]);
    }
  }

  lemma {:induction false} PrintsWrapped(u: Upstream, run: Run, c: Bytes)
    requires !u.responses && run.failed.None? && !run.gate.dropRest && StepRun(u, run, c).failed.None?
    requires Break(run.gate.reader, c).None? && FirstFailure(u, Scan(run.gate.reader, c).frames) == None
    requires AnyWrapped(u, Scan(run.gate.reader, c).frames)
    ensures StepRun(u, run, c).sent == run.sent + FormatAll(NotDone(u, Scan(run.gate.reader, c).frames))
  {
    hide Scan, Break, FormatAll, NotDone, FirstFailure, AnyEnds;
  }

  /** Nothing open was forwarded: its frames are seen as they are printed. */
  lemma {:induction false} FirstErrorShows(u: Upstream, chunks: seq<Bytes>, c: Bytes)
    requires !u.responses && Break(FRESH, Flatten(chunks + [c])).None? && OpensInTime(chunks + [c])
    requires var before := Scan(FRESH, Flatten(chunks));
             && !ShowsError(u, before.frames) && AnyWrapped(u, Scan(before.reader, c).frames)
             && (before.frames == [] || !before.reader.IsOpen())
    ensures var before := Scan(FRESH, Flatten(chunks));
            var frames := NotDone(u, Scan(before.reader, c).frames);
            && Scan(FRESH, After(u, chunks + [c]).sent) == Scanned(FRESH, before.frames + ChompFrames(frames))
            && (ChompFrames(frames) == frames <==> AreClean(frames))
  {
    hide Scan, Break, FormatAll, NotDone, AnyWrapped, Flatten, OpensInTime, ShowsError, AreText, IsTextReader, ChompFrames, After, AreClean;
    var body, before := Flatten(chunks), Scan(FRESH, Flatten(chunks));
    FirstErrorIsPrinted(u, chunks, c);
    StaysText(body);
    ClosedOrFresh(before);
    ScanEmitsText(before.reader, c);
    TextByMembers(Scan(before.reader, c).frames);
    NotDoneIsText(u, Scan(before.reader, c).frames);
    var frames := NotDone(u, Scan(before.reader, c).frames);
    ScanFormattedAll(frames);
    ScanConcat(FRESH, body, FormatAll(frames));
    assert [] + FormatAll(frames) == FormatAll(frames) && [] + ChompFrames(frames) == ChompFrames(frames);
    if AreClean(frames) {
      CleanIsText(frames);
    } else {
      ChompFramesCount(frames);
    }
  }

  lemma ClosedOrFresh(s: Scanned)
    requires IsTextReader(s.reader)
    ensures !s.reader.IsOpen() ==> s.reader == FRESH
  {
  }

  /** Two reads: a frame and the start of a vendor error in one data line, cut somewhere in its data; the rest of it. */
  function SplitError(a: Frame, d1: Bytes, d2: Bytes): seq<Bytes> {
    [Format(a) + DataText(d1), d2 + [LF] + [LF]]
  }

  lemma {:induction false} ReadsOpenData(a: Frame, d1: Bytes)
    requires IsTextFrame(a) && IsClean(a) && LF !in d1
    ensures Scan(FRESH, Format(a) + DataText(d1)) == Scanned(Reader(DataText(d1), None, [], false), [a])
  {
    hide Scan, Format;
    ReadsCleanFrame(a);
    ScanConcat(FRESH, Format(a), DataText(d1));
    ScanWithinLine(FRESH, DataText(d1));
    assert [] + DataText(d1) == DataText(d1) && [a] + [] == [a];
  }

  /** The start of the error was forwarded; the whole error printed behind it closes one frame, with both in its data. */
  lemma {:induction false} GluedErrorReads(d1: Bytes, d: Bytes)
    requires LF !in d1 && IsLine(d) && !EndsInCr(d)
    ensures Scan(Reader(DataText(d1), None, [], false), DataText(d) + [LF] + [LF])
         == Scanned(FRESH, [Frame(None, Lossy(d1) + DataText(d))])
  {
    hide Scan, Lossy, LineOf;
    var r, t := Reader(DataText(d1), None, [], false), DataText(d);
    GluedDataLine(DataText(d1), d);
    AsciiIsText(DATA + [COLON]);
    LossySplitsAtAscii(DATA + [COLON], SPACE, d1);
    assert DATA + [COLON] + [SPACE] + d1 == DataText(d1);
    var v := Lossy(d1) + t;
    assert DATA + [COLON] + [SPACE] + Lossy(d1) + t == DATA + [COLON, SPACE] + v;
    FieldOfPrinted(DATA, v);
    LineFed(r, t);
    ScanConcat(r, t + [LF], [LF]);
    var open := Reader([], None, [v], true);
    assert [] + [v] == [v];
    FeedCloses(open);
    assert [] + [Frame(None, v)] == [Frame(None, v)];
  }

  /**
   A vendor error cut in its data line after another frame: its start has been forwarded, then the whole of it is printed,
   and a reader of the output sees a frame that is not the error.
   */
  lemma {:induction false} SplitErrorIsGarbled(u: Upstream, a: Frame, d1: Bytes, d2: Bytes)
    requires !u.responses && IsTextFrame(a) && IsClean(a) && !u.wrapped(a.data)
    requires IsLine(d1 + d2) && !EndsInCr(d1 + d2) && u.wrapped(d1 + d2) && !u.IsDone(Frame(None, d1 + d2))
    requires Break(FRESH, Flatten(SplitError(a, d1, d2))).None? && |Format(a) + DataText(d1)| <= MAX_UPSTREAM_BODY
    ensures var chunks, error := SplitError(a, d1, d2), Frame(None, d1 + d2);
            && After(u, chunks).failed.None?
            && Scan(FRESH, Flatten(chunks)) == Scanned(FRESH, [a, error])
            && Scan(FRESH, After(u, chunks).sent) == Scanned(FRESH, [a, Frame(None, Lossy(d1) + DataText(d1 + d2))])
  {
    hide Scan, Break, Format, FormatAll, NotDone, FirstFailure, AnyWrapped, AnyEnds, Lossy, DataText, OpensInTime, IsText, IsClean;
    var chunks, error := SplitError(a, d1, d2), Frame(None, d1 + d2);
    var first := [Format(a) + DataText(d1)];
    SplitErrorBody(a, d1, d2);
    ReadsOpenData(a, d1);
    SplitErrorOpens(a, d1, d2);
    var open := Reader(DataText(d1), None, [], false);
    OneWrapped(u, a, error);
    assert first + [d2 + [LF] + [LF]] == chunks;
    FirstErrorIsPrinted(u, first, d2 + [LF] + [LF]);
    AcceptedIffInTime(u, chunks);
    FormatAllOne(error);
    GluedErrorReads(d1, d1 + d2);
    ScanConcat(FRESH, Format(a) + DataText(d1), Format(error));
    assert [a] + [Frame(None, Lossy(d1) + DataText(d1 + d2))] == [a, Frame(None, Lossy(d1) + DataText(d1 + d2))];
  }

  lemma {:induction false} OneWrapped(u: Upstream, a: Frame, error: Frame)
    requires !u.responses && !u.wrapped(a.data) && u.wrapped(error.data) && !u.IsDone(error)
    ensures !ShowsError(u, [a]) && AnyWrapped(u, [error]) && NotDone(u, [error]) == [error]
  {
    NoFailureElsewhere(u, [a]);
    assert [a][..0] == [] && [error][..0] == [];
    assert AnyWrapped(u, [a]) == (AnyWrapped(u, []) || u.wrapped(a.data));
    assert AnyWrapped(u, [error]) == (AnyWrapped(u, []) || u.wrapped(error.data));
  }

  lemma {:induction false} SplitErrorBody(a: Frame, d1: Bytes, d2: Bytes)
    requires IsTextFrame(a) && IsClean(a) && IsLine(d1 + d2) && !EndsInCr(d1 + d2)
    ensures LF !in d1 && IsTextFrame(Frame(None, d1 + d2)) && IsClean(Frame(None, d1 + d2))
    ensures Format(Frame(None, d1 + d2)) == DataText(d1 + d2) + [LF] + [LF]
    ensures Flatten([Format(a) + DataText(d1)]) == Format(a) + DataText(d1)
    ensures Flatten(SplitError(a, d1, d2)) == Format(a) + Format(Frame(None, d1 + d2))
    ensures Scan(FRESH, Flatten(SplitError(a, d1, d2))) == Scanned(FRESH, [a, Frame(None, d1 + d2)])
    ensures Scan(Reader(DataText(d1), None, [], false), d2 + [LF] + [LF]) == Scanned(FRESH, [Frame(None, d1 + d2)])
  {
    hide Scan, Format, IsText;
    var f, chunks := Frame(None, d1 + d2), SplitError(a, d1, d2);
    SplitJoin([f.data]);
    assert Join([f.data]) == f.data;
    assert forall b :: b in d1 ==> b in d1 + d2;
    FormatPlain(f);
    ReadsCleanFrame(a);
    ReadsCleanFrame(f);
    OneChunk(Format(a) + DataText(d1));
    assert chunks[..1] == [Format(a) + DataText(d1)];
    assert DataText(d1) + (d2 + [LF] + [LF]) == DataText(d1 + d2) + [LF] + [LF];
    ConcatAssoc(Format(a), DataText(d1), d2 + [LF] + [LF]);
    ScanConcat(FRESH, Format(a), Format(f));
    assert [a] + [f] == [a, f];
    ScanConcat(FRESH, DataText(d1), d2 + [LF] + [LF]);
    ScanWithinLine(FRESH, DataText(d1));
    assert [] + DataText(d1) == DataText(d1);
    var open := Reader(DataText(d1), None, [], false);
    assert [] + Scan(open, d2 + [LF] + [LF]).frames == Scan(open, d2 + [LF] + [LF]).frames;
  }

  lemma {:induction false} SplitErrorOpens(a: Frame, d1: Bytes, d2: Bytes)
    requires IsTextFrame(a) && IsClean(a) && LF !in d1 && |Format(a) + DataText(d1)| <= MAX_UPSTREAM_BODY
    ensures OpensInTime(SplitError(a, d1, d2))
  {
    hide Scan, Format, DataText;
    var chunks := SplitError(a, d1, d2);
    var first := [Format(a) + DataText(d1)];
    ReadsOpenData(a, d1);
    OneChunk(Format(a) + DataText(d1));
    assert chunks[..1] == first && first[..0] == [];
    assert OpensInTime(first[..0]) && OpensInTime(chunks[..1]);
  }
}
