/**
 What a reader of the gate's output sees of the frame that comes next: the exact condition under which frames that arrive
 on their own are seen, on the Responses wire.
 */
module GateNext {
  import opened Utf8
  import opened Sse
  import opened SseFormat
  import opened Gate
  import opened GateRuns
  import opened GateOutput
  import opened GateStrands

  // ---- runs ----

  lemma {:induction false} AppendChunk(u: Upstream, chunks: seq<Bytes>, x: Bytes)
    ensures Flatten(chunks + [x]) == Flatten(chunks) + x
    ensures After(u, chunks + [x]) == StepRun(u, After(u, chunks), x)
    ensures NeverStrands(u, chunks + [x]) <==> NeverStrands(u, chunks) && !Strands(u, After(u, chunks).gate, x)
    ensures NeverMangles(u, chunks + [x]) <==> NeverMangles(u, chunks) && !Mangles(u, After(u, chunks).gate, x)
  {
    var all := chunks + [x];
    assert all[..|all| - 1] == chunks;
  }

  /** Between frames: every frame of the body so far is closed, and there is one. */
  predicate AtRest(chunks: seq<Bytes>) {
    var s := Scan(FRESH, Flatten(chunks));
    s.frames != [] && !s.reader.IsOpen()
  }

  predicate Shows(u: Upstream, chunks: seq<Bytes>) {
    Sees(u, After(u, chunks).sent, Expected(u, Scan(FRESH, Flatten(chunks)).frames))
  }

  /** Wherever the run is between frames, `f` on its own would be seen next. */
  predicate ShowsNext(u: Upstream, chunks: seq<Bytes>, f: Frame) {
    && (AtRest(chunks) ==> Shows(u, chunks + [Format(f)]))
    && (chunks == [] || ShowsNext(u, chunks[..|chunks| - 1], f))
  }

  predicate IsReadable(f: Frame) {
    IsTextFrame(f) && IsClean(f) && Break(FRESH, Format(f)).None?
  }

  lemma ClosedIsFresh(r: Reader)
    requires IsTextReader(r) && !r.IsOpen()
    ensures r == FRESH
  {
  }

  /** Between frames a whole frame is read as such, within the limits, and strands nothing. */
  lemma {:induction false} RestReadsNext(u: Upstream, chunks: seq<Bytes>, f: Frame)
    requires Readable(u, Flatten(chunks)) && OpensInTime(chunks) && AtRest(chunks) && IsReadable(f)
    ensures Readable(u, Flatten(chunks + [Format(f)])) && OpensInTime(chunks + [Format(f)]) && AtRest(chunks + [Format(f)])
    ensures Scan(FRESH, Flatten(chunks + [Format(f)])) == Scanned(FRESH, Scan(FRESH, Flatten(chunks)).frames + [f])
    ensures !Strands(u, After(u, chunks).gate, Format(f)) && !Mangles(u, After(u, chunks).gate, Format(f))
  {
    hide Format, Scan, Break, ErrorsPrintable, After, StepRun, IsTextReader, Flatten, Mangles;
    var body, x := Flatten(chunks), Format(f);
    AppendChunk(u, chunks, x);
    StaysText(body);
    ClosedIsFresh(Scan(FRESH, body).reader);
    ReadsCleanFrame(f);
    ScanConcat(FRESH, body, x);
    BreakConcat(FRESH, body, x);
    AcceptedCounts(u, chunks);
    NothingHeldAfterError(u, chunks);
    OneIsClean(f);
    CleanStepMangles(u, After(u, chunks).gate, x);
    var all := chunks + [x];
    assert all[..|all| - 1] == chunks;
  }

  lemma OneIsClean(f: Frame)
    requires IsTextFrame(f) && IsClean(f)
    ensures AreClean([f]) && IsCleanReader(FRESH)
  {
    assert [f][..0] == [];
  }

  lemma {:induction false} InSyncShows(u: Upstream, chunks: seq<Bytes>)
    requires InSync(u, chunks)
    ensures Shows(u, chunks)
  {
  }

  lemma {:induction false} NothingStrandsShowsNext(u: Upstream, chunks: seq<Bytes>, f: Frame)
    requires Readable(u, Flatten(chunks)) && OpensInTime(chunks) && NeverStrands(u, chunks) && NeverMangles(u, chunks) && IsReadable(f)
    ensures ShowsNext(u, chunks, f)
    decreases |chunks|
  {
    hide Readable, AtRest, Shows, InSync, IsReadable, Strands, Mangles, After, Flatten, Format;
    if AtRest(chunks) {
      RestReadsNext(u, chunks, f);
      AppendChunk(u, chunks, Format(f));
      InStepIffKept(u, chunks + [Format(f)]);
      InSyncShows(u, chunks + [Format(f)]);
    }
    if chunks != [] {
      ReadablePrefix(u, chunks);
      NothingStrandsShowsNext(u, chunks[..|chunks| - 1], f);
    }
  }

  lemma {:induction false} ReadablePrefix(u: Upstream, chunks: seq<Bytes>)
    requires Readable(u, Flatten(chunks)) && chunks != []
    ensures Readable(u, Flatten(chunks[..|chunks| - 1]))
  {
    PrefixReads(chunks);
  }

  // ---- the first chunk that strands bytes ----

  /** Where a run stands before the chunk that strands its held bytes. */
  lemma {:induction false} BeforeStranding(u: Upstream, chunks: seq<Bytes>, c: Bytes)
    requires Readable(u, Flatten(chunks)) && OpensInTime(chunks) && NeverStrands(u, chunks) && NeverMangles(u, chunks)
    requires Strands(u, After(u, chunks).gate, c)
    ensures var run, body := After(u, chunks), Scan(FRESH, Flatten(chunks));
            && run.failed.None? && !run.gate.dropRest && run.gate.reader == body.reader
            && body.frames != [] && FirstFailure(u, body.frames).None?
            && Sees(u, run.sent, body.frames) && Leads(run.gate.held, body.reader) && body.reader.IsOpen()
  {
    hide Scan, Break, Sees, Leads, FirstFailure, NeverStrands, NeverMangles, OpensInTime, After, Flatten;
    InStepIffKept(u, chunks);
    AcceptedCounts(u, chunks);
    TracksBody(u, chunks);
    NothingHeldAfterError(u, chunks);
  }

  /** The stranding chunk is forwarded ahead of the bytes that are held. */
  lemma {:induction false} AfterStranding(u: Upstream, chunks: seq<Bytes>, c: Bytes)
    requires Readable(u, Flatten(chunks + [c])) && OpensInTime(chunks + [c])
    requires NeverStrands(u, chunks) && NeverMangles(u, chunks)
    requires Strands(u, After(u, chunks).gate, c)
    ensures var run, body := After(u, chunks), Scan(FRESH, Flatten(chunks));
            && After(u, chunks + [c]) == Run(run.gate.(reader := FRESH), run.sent + c, None)
            && Scan(FRESH, Flatten(chunks + [c])) == Scanned(FRESH, body.frames)
            && Readable(u, Flatten(chunks)) && OpensInTime(chunks)
            && !run.gate.dropRest && Scan(body.reader, c).frames == [] && !Scan(body.reader, c).reader.IsOpen()
  {
    hide Scan, Break, Sees, Leads, FirstFailure, NeverStrands, NeverMangles, After, StepRun, Flatten;
    var all, body := chunks + [c], Flatten(chunks);
    assert all[..|all| - 1] == chunks;
    AppendChunk(u, chunks, c);
    ReadablePrefix(u, all);
    BeforeStranding(u, chunks, c);
    ScanConcat(FRESH, body, c);
    BreakConcat(FRESH, body, c);
    AcceptedIffInTime(u, all);
    StepNoFrame(u, After(u, chunks), c);
    StaysText(body + c);
    ClosedIsFresh(Scan(FRESH, body + c).reader);
    assert Scan(FRESH, body).frames + [] == Scan(FRESH, body).frames;
  }

  /** A plain frame read next is forwarded behind the held bytes. */
  lemma {:induction false} AfterPlain(u: Upstream, chunks: seq<Bytes>, c: Bytes, f: Frame)
    requires Readable(u, Flatten(chunks + [c])) && OpensInTime(chunks + [c])
    requires NeverStrands(u, chunks) && NeverMangles(u, chunks)
    requires Strands(u, After(u, chunks).gate, c) && Plain(u, f)
    ensures var run, next := After(u, chunks), After(u, chunks + [c] + [Format(f)]);
            && next.failed.None? && next.sent == run.sent + (c + (run.gate.held + Format(f)))
            && next.gate.reader == FRESH && next.gate.sawFrame && !next.gate.dropRest && !next.gate.sawVendorError
  {
    hide Scan, Break, FirstFailure, NeverStrands, NeverMangles, After, Flatten, Format, AnyWrapped, Readable, OpensInTime;
    var run := After(u, chunks);
    AfterStranding(u, chunks, c);
    AppendChunk(u, chunks + [c], Format(f));
    PassOneFrame(u, After(u, chunks + [c]).gate, f);
    ConcatAssoc(run.sent, c, run.gate.held + Format(f));
  }

  /** The output is closed again behind the glued frame. */
  lemma {:induction false} GluedIsClosed(u: Upstream, sent: Bytes, frames: seq<Frame>, held: Bytes, r: Reader, c: Bytes, f: Frame)
    requires Sees(u, sent, frames) && Plain(u, f)
    requires Leads(held, r) && r.IsOpen() && Scan(r, c).frames == [] && !Scan(r, c).reader.IsOpen()
    ensures Scan(FRESH, sent + (c + (held + Format(f)))).reader == FRESH
  {
    hide Leads, Scan, Visible, Format;
    var shown := StrandedShows(held, r, c);
    ScanConcat(FRESH, sent, c + (held + Format(f)));
  }

  lemma {:induction false} ExpectedNext(u: Upstream, frames: seq<Frame>, f: Frame)
    requires FirstFailure(u, frames).None? && u.Failure(f).None?
    ensures FirstFailure(u, frames + [f]).None? && Expected(u, frames + [f]) == frames + [f]
  {
    assert (frames + [f])[..|frames|] == frames;
  }

  lemma {:induction false} StrandingHidesNext(u: Upstream, chunks: seq<Bytes>, c: Bytes, f: Frame, g: Frame)
    requires Readable(u, Flatten(chunks + [c])) && OpensInTime(chunks + [c])
    requires NeverStrands(u, chunks) && NeverMangles(u, chunks)
    requires Strands(u, After(u, chunks).gate, c) && Plain(u, f) && Plain(u, g) && f != g
    ensures !(ShowsNext(u, chunks + [c], f) && ShowsNext(u, chunks + [c], g))
  {
    hide Scan, Break, FirstFailure, NeverStrands, NeverMangles, After, Flatten, Format, Readable, OpensInTime, Sees, Leads, Plain, Strands;
    hide Expected;
    var run, body := After(u, chunks), Scan(FRESH, Flatten(chunks));
    AfterStranding(u, chunks, c);
    BeforeStranding(u, chunks, c);
    StrandedHidesOne(u, run.sent, body.frames, run.gate.held, body.reader, c, f, g);
    PlainShown(u, chunks, c, f);
    PlainShown(u, chunks, c, g);
  }

  lemma {:induction false} PlainShown(u: Upstream, chunks: seq<Bytes>, c: Bytes, f: Frame)
    requires Readable(u, Flatten(chunks + [c])) && OpensInTime(chunks + [c])
    requires NeverStrands(u, chunks) && NeverMangles(u, chunks)
    requires Strands(u, After(u, chunks).gate, c) && Plain(u, f)
    ensures var run, frames := After(u, chunks), Scan(FRESH, Flatten(chunks)).frames;
            && AtRest(chunks + [c])
            && (ShowsNext(u, chunks + [c], f) ==> Sees(u, run.sent + (c + (run.gate.held + Format(f))), frames + [f]))
  {
    hide Scan, Break, FirstFailure, NeverStrands, NeverMangles, After, Flatten, Format, Readable, OpensInTime, Sees, Leads, Strands;
    hide Expected;
    AfterStranding(u, chunks, c);
    BeforeStranding(u, chunks, c);
    AfterPlain(u, chunks, c, f);
    RestReadsNext(u, chunks + [c], f);
    ExpectedNext(u, Scan(FRESH, Flatten(chunks)).frames, f);
  }

  lemma {:induction false} StrandsFirst(u: Upstream, chunks: seq<Bytes>)
    requires chunks != [] && !NeverStrands(u, chunks)
    ensures var init := chunks[..|chunks| - 1];
            !NeverStrands(u, init) || Strands(u, After(u, init).gate, chunks[|chunks| - 1])
  {
  }

  /** Once a chunk has stranded bytes, one of any two plain frames is not seen when it comes next. */
  lemma {:induction false} StrandingShows(u: Upstream, chunks: seq<Bytes>, f: Frame, g: Frame)
    requires Readable(u, Flatten(chunks)) && OpensInTime(chunks) && !NeverStrands(u, chunks) && NeverMangles(u, chunks)
    requires Plain(u, f) && Plain(u, g) && f != g
    ensures !(ShowsNext(u, chunks, f) && ShowsNext(u, chunks, g))
    decreases |chunks|
  {
    hide Readable, AtRest, Shows, Strands, Mangles, After, Flatten, Format, Plain;
    var init, c := chunks[..|chunks| - 1], chunks[|chunks| - 1];
    assert init + [c] == chunks;
    ReadablePrefix(u, chunks);
    if NeverStrands(u, init) {
      StrandsFirst(u, chunks);
      StrandingHidesNext(u, init, c, f, g);
    } else {
      StrandingShows(u, init, f, g);
    }
  }

  /**
   No chunk strands held bytes exactly when, wherever the run is between frames, any frame that would arrive on its own next
   is seen. Two plain frames are enough to tell.
   */
  lemma {:induction false} NextIsSeenIffNothingStrands(u: Upstream, chunks: seq<Bytes>, f: Frame, g: Frame)
    requires Readable(u, Flatten(chunks)) && OpensInTime(chunks) && NeverMangles(u, chunks)
    requires Plain(u, f) && Plain(u, g) && f != g
    ensures NeverStrands(u, chunks) <==> forall x | IsReadable(x) :: ShowsNext(u, chunks, x)
    ensures NeverStrands(u, chunks) <==> ShowsNext(u, chunks, f) && ShowsNext(u, chunks, g)
  {
    hide Readable, OpensInTime, NeverStrands, NeverMangles, ShowsNext, Break, Format, IsTextFrame, IsClean;
    if NeverStrands(u, chunks) {
      forall x | IsReadable(x) ensures ShowsNext(u, chunks, x) {
        NothingStrandsShowsNext(u, chunks, x);
      }
    } else {
      StrandingShows(u, chunks, f, g);
    }
  }

  // ---- and a failed frame after it ----

  /** The whole output shows what is to be seen of the body. */
  predicate ShowsBody(u: Upstream, chunks: seq<Bytes>) {
    Sees(u, Output(u, chunks), Expected(u, BodyFrames(Flatten(chunks))))
  }

  /** Wherever the run is between frames, `f` and then the failed frame `bad` would be seen as `f` and one error. */
  predicate StopsNext(u: Upstream, chunks: seq<Bytes>, f: Frame, bad: Frame) {
    && (AtRest(chunks) ==> ShowsBody(u, chunks + [Format(f)] + [Format(bad)]))
    && (chunks == [] || StopsNext(u, chunks[..|chunks| - 1], f, bad))
  }

  lemma ClosedBody(body: Bytes)
    requires Scan(FRESH, body).reader == FRESH
    ensures BodyFrames(body) == Scan(FRESH, body).frames
  {
  }

  lemma {:induction false} FailsLast(u: Upstream, frames: seq<Frame>, bad: Frame)
    requires u.Failure(bad).Some?
    ensures FirstFailure(u, frames + [bad]).Some?
    ensures FirstFailure(u, frames).None? ==>
              Expected(u, frames + [bad]) == frames + [u.ErrorFrame(u.Failure(bad).value)]
  {
    assert (frames + [bad])[..|frames|] == frames;
  }

  lemma {:induction false} NothingStrandsStopsNext(u: Upstream, chunks: seq<Bytes>, f: Frame, bad: Frame)
    requires Readable(u, Flatten(chunks)) && OpensInTime(chunks) && NeverStrands(u, chunks) && NeverMangles(u, chunks)
    requires IsReadable(f) && IsReadable(bad) && u.Failure(bad).Some?
    ensures StopsNext(u, chunks, f, bad)
    decreases |chunks|
  {
    hide Readable, AtRest, Strands, Mangles, After, Flatten, Format, Sees, IsReadable, BodyFrames, FirstFailure, Output, Scan;
    if AtRest(chunks) {
      var one := chunks + [Format(f)];
      RestReadsNext(u, chunks, f);
      AppendChunk(u, chunks, Format(f));
      RestReadsNext(u, one, bad);
      AppendChunk(u, one, Format(bad));
      ClosedBody(Flatten(one + [Format(bad)]));
      FailsLast(u, Scan(FRESH, Flatten(one)).frames, bad);
      OutputStopsAtFailedFrame(u, one + [Format(bad)]);
    }
    if chunks != [] {
      ReadablePrefix(u, chunks);
      NothingStrandsStopsNext(u, chunks[..|chunks| - 1], f, bad);
    }
  }

  lemma {:induction false} StepBad(u: Upstream, run: Run, bad: Frame)
    requires run.failed.None? && run.gate.reader == FRESH && run.gate.sawFrame && !run.gate.dropRest
    requires IsReadable(bad) && u.Failure(bad).Some?
    ensures var next := StepRun(u, run, Format(bad));
            next.sent + EndBytes(u, EndOf(u, next.gate)) == run.sent + u.ErrorBytes(u.Failure(bad).value)
  {
    hide Scan, Break, Format;
    ReadsCleanFrame(bad);
    var error := u.ErrorBytes(u.Failure(bad).value);
    assert [bad][..0] == [];
    assert FirstFailure(u, [bad]) == Some((0, u.Failure(bad).value));
    assert FormatAll(NotDone(u, [])) + error == error;
    assert run.sent + error + [] == run.sent + error;
  }

  lemma {:induction false} StoppedShown(u: Upstream, chunks: seq<Bytes>, c: Bytes, f: Frame, bad: Frame)
    requires Readable(u, Flatten(chunks + [c])) && OpensInTime(chunks + [c])
    requires NeverStrands(u, chunks) && NeverMangles(u, chunks)
    requires Strands(u, After(u, chunks).gate, c) && Plain(u, f) && IsReadable(bad) && u.Failure(bad).Some?
    ensures var run, frames := After(u, chunks), Scan(FRESH, Flatten(chunks)).frames;
            StopsNext(u, chunks + [c], f, bad) ==> Sees(u, run.sent + (c + (run.gate.held + Format(f))), frames + [f])
  {
    hide Scan, Break, FirstFailure, NeverStrands, NeverMangles, After, Flatten, Format, ErrorsPrintable, OpensInTime, Sees, Leads, Strands;
    hide Expected, AtRest, EndOf, StepRun, BodyFrames;
    var run, body, rest := After(u, chunks), Scan(FRESH, Flatten(chunks)), chunks + [c];
    AfterStranding(u, chunks, c);
    BeforeStranding(u, chunks, c);
    AfterPlain(u, chunks, c, f);
    PlainShown(u, chunks, c, f);
    RestReadsNext(u, rest, f);
    RestReadsNext(u, rest + [Format(f)], bad);
    AppendChunk(u, rest + [Format(f)], Format(bad));
    StepBad(u, After(u, rest + [Format(f)]), bad);
    ExpectedNext(u, body.frames, f);
    FailsLast(u, body.frames + [f], bad);
    StaysText(Flatten(rest + [Format(f)] + [Format(bad)]));
    ClosedBody(Flatten(rest + [Format(f)] + [Format(bad)]));
    GluedIsClosed(u, run.sent, body.frames, run.gate.held, body.reader, c, f);
    var message := u.Failure(bad).value;
    ErrorIsSeen(u, message);
    SeesAhead(u, run.sent + (c + (run.gate.held + Format(f))), u.ErrorBytes(message), body.frames + [f], [u.ErrorFrame(message)]);
  }

  lemma {:induction false} StrandingStops(u: Upstream, chunks: seq<Bytes>, f: Frame, g: Frame, bad: Frame)
    requires Readable(u, Flatten(chunks)) && OpensInTime(chunks) && !NeverStrands(u, chunks) && NeverMangles(u, chunks)
    requires Plain(u, f) && Plain(u, g) && f != g && IsReadable(bad) && u.Failure(bad).Some?
    ensures !(StopsNext(u, chunks, f, bad) && StopsNext(u, chunks, g, bad))
    decreases |chunks|
  {
    hide Readable, AtRest, ShowsBody, Strands, Mangles, After, Flatten, Format, Plain, IsReadable, Scan, Leads, Sees;
    var init, c := chunks[..|chunks| - 1], chunks[|chunks| - 1];
    assert init + [c] == chunks;
    ReadablePrefix(u, chunks);
    if NeverStrands(u, init) {
      StrandsFirst(u, chunks);
      StoppedShown(u, init, c, f, bad);
      StoppedShown(u, init, c, g, bad);
      AfterStranding(u, init, c);
      BeforeStranding(u, init, c);
      var run, body := After(u, init), Scan(FRESH, Flatten(init));
      StrandedHidesOne(u, run.sent, body.frames, run.gate.held, body.reader, c, f, g);
    } else {
      StrandingStops(u, init, f, g, bad);
    }
  }

  /**
   No chunk strands held bytes exactly when, wherever the run is between frames, any frame on its own and a failed frame
   after it end the output as they should: the frames before the failed one, then one error.
   */
  lemma {:induction false} StopIsSeenIffNothingStrands(u: Upstream, chunks: seq<Bytes>, f: Frame, g: Frame, bad: Frame)
    requires Readable(u, Flatten(chunks)) && OpensInTime(chunks) && NeverMangles(u, chunks)
    requires Plain(u, f) && Plain(u, g) && f != g && IsReadable(bad) && u.Failure(bad).Some?
    ensures NeverStrands(u, chunks) <==> forall x | IsReadable(x) :: StopsNext(u, chunks, x, bad)
    ensures NeverStrands(u, chunks) <==> StopsNext(u, chunks, f, bad) && StopsNext(u, chunks, g, bad)
  {
    hide Readable, OpensInTime, NeverStrands, NeverMangles, StopsNext, Break, Format, IsTextFrame, IsClean;
    if NeverStrands(u, chunks) {
      forall x | IsReadable(x) ensures StopsNext(u, chunks, x, bad) {
        NothingStrandsStopsNext(u, chunks, x, bad);
      }
    } else {
      StrandingStops(u, chunks, f, g, bad);
    }
  }

  // ---- an open frame without event and data ----

  const ID_LINE: Bytes := [105, 100, 58, 49, 10]

  /** A frame and the start of one that has only an id; then the line feed that closes it. */
  function HeldBlank(a: Frame): seq<Bytes> {
    [Format(a) + ID_LINE, [LF]]
  }

  lemma {:induction false} ScanIdLine()
    ensures Scan(FRESH, ID_LINE) == Scanned(Reader([], None, [], true), []) && Break(FRESH, ID_LINE).None?
    ensures Scan(Reader([], None, [], true), [LF]) == Scanned(FRESH, [Frame(None, [])])
    ensures Break(Reader([], None, [], true), [LF]).None?
  {
    var x := ID + [COLON] + [49];
    AsciiIsText(x);
    FieldNameIs(ID, [49]);
    assert x + [LF] == ID_LINE;
    ScanWholeLine(FRESH, x);
    ScanWholeLine(Reader([], None, [], true), []);
    assert [] + [LF] == [LF];
  }

  /** The two reads as the gate takes them: nothing is held for the open frame. */
  lemma {:induction false} GateOnHeldBlank(u: Upstream, a: Frame)
    requires u.responses && IsReadable(a) && |Format(a)| + 5 <= MAX_UPSTREAM_BODY
    requires u.Failure(a).None? && !u.wrapped(a.data) && !u.IsDone(a)
    requires u.Failure(Frame(None, [])).None? && !u.wrapped([])
    ensures var first := StepRun(u, START, Format(a) + ID_LINE);
            && first.failed.None? && first.sent == Format(a) && first.gate.held == []
            && StepRun(u, first, [LF]).failed.None? && StepRun(u, first, [LF]).sent == Format(a) + [LF]
  {
    hide Scan, Break, Format, FormatAll, NotDone, FirstFailure, AnyWrapped, AnyEnds, IsReadable;
    ScanIdLine();
    ReadsIdAfter(a);
    OneFrame(u, a);
    OneFrame(u, Frame(None, []));
    FormatAllOne(a);
    assert [] + Format(a) == Format(a) && [] + [LF] == [LF];
  }

  lemma {:induction false} ReadsIdAfter(a: Frame)
    requires IsReadable(a)
    ensures Scan(FRESH, Format(a) + ID_LINE) == Scanned(Reader([], None, [], true), [a])
    ensures Break(FRESH, Format(a) + ID_LINE).None?
    ensures Pending(Reader([], None, [], true)) == []
  {
    hide Scan, Break, Format;
    ScanIdLine();
    ReadsCleanFrame(a);
    ScanConcat(FRESH, Format(a), ID_LINE);
    BreakConcat(FRESH, Format(a), ID_LINE);
    assert [a] + [] == [a];
  }

  /** The frame with only an id is closed in the body; a reader of the output never sees it. */
  lemma {:induction false} HeldBlankIsLost(u: Upstream, a: Frame)
    requires u.responses && IsReadable(a) && |Format(a)| + 5 <= MAX_UPSTREAM_BODY
    requires u.Failure(a).None? && !u.wrapped(a.data) && !u.IsDone(a)
    requires u.Failure(Frame(None, [])).None? && !u.wrapped([])
    ensures var chunks := HeldBlank(a);
            && After(u, chunks).failed.None? && NeverStrands(u, chunks)
            && Scan(FRESH, Flatten(chunks)).frames == [a, Frame(None, [])]
            && Scan(FRESH, After(u, chunks).sent) == Scanned(FRESH, [a])
  {
    hide Scan, Break, Format, StepRun;
    var chunks := HeldBlank(a);
    var first := [Format(a) + ID_LINE];
    GateOnHeldBlank(u, a);
    ReadsCleanFrame(a);
    ScanFeedAfter(Format(a));
    AppendChunk(u, [], Format(a) + ID_LINE);
    AppendChunk(u, first, [LF]);
    assert [] + first == first && first + [[LF]] == chunks && [] + (Format(a) + ID_LINE) == Format(a) + ID_LINE;
    ScanIdLine();
    ScanConcat(FRESH, Format(a), ID_LINE);
    ScanConcat(FRESH, Format(a) + ID_LINE, [LF]);
    assert [a] + [] + [Frame(None, [])] == [a, Frame(None, [])];
  }
}
