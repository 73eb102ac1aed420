/** The whole output of the same-wire gate, end of body included. */
module GateOutput {
  import opened Utf8
  import opened Sse
  import opened SseFormat
  import opened Gate
  import opened GateRuns

  lemma {:induction false} InSyncAtEnd(u: Upstream, chunks: seq<Bytes>)
    requires Readable(u, Flatten(chunks)) && OpensInTime(chunks) && NeverStrands(u, chunks) && NeverMangles(u, chunks)
    ensures InSync(u, chunks)
    ensures Tracks(u, After(u, chunks), Scan(FRESH, Flatten(chunks)))
  {
    InStepIffKept(u, chunks);
    AcceptedIffInTime(u, chunks);
    TracksBody(u, chunks);
  }

  // ---- a failed frame ends the output ----

  lemma {:induction false} DroppedIsSilent(u: Upstream, run: Run, c: Bytes)
    requires run.gate.dropRest
    ensures StepRun(u, run, c).sent == run.sent && StepRun(u, run, c).gate.dropRest
  {
    assert run.sent + [] == run.sent;
  }

  lemma {:induction false} DroppingStep(u: Upstream, run: Run, c: Bytes) returns (x: Bytes, message: string)
    requires !run.gate.dropRest && StepRun(u, run, c).gate.dropRest
    ensures StepRun(u, run, c).sent == x + u.ErrorBytes(message)
    ensures FirstFailure(u, Scan(run.gate.reader, c).frames).Some?
    ensures message == FirstFailure(u, Scan(run.gate.reader, c).frames).value.1
  {
    hide Scan, Break, FormatAll, NotDone, Format;
    var frames := Scan(run.gate.reader, c).frames;
    var k := FirstFailure(u, frames).value.0;
    message := FirstFailure(u, frames).value.1;
    x := run.sent + FormatAll(NotDone(u, frames[..k]));
    ConcatAssoc(run.sent, FormatAll(NotDone(u, frames[..k])), u.ErrorBytes(message));
  }

  /** Once the rest is dropped, what was sent ends in the bytes of one error, and the end of the body adds nothing. */
  lemma {:induction false} DroppedEndsInError(u: Upstream, chunks: seq<Bytes>) returns (x: Bytes, message: string)
    requires After(u, chunks).gate.dropRest
    ensures Output(u, chunks) == After(u, chunks).sent == x + u.ErrorBytes(message)
    decreases |chunks|
  {
    hide Scan, Break, PushOf, Format;
    var n := |chunks| - 1;
    if After(u, chunks[..n]).gate.dropRest {
      x, message := DroppedEndsInError(u, chunks[..n]);
      DroppedIsSilent(u, After(u, chunks[..n]), chunks[n]);
    } else {
      x, message := DroppingStep(u, After(u, chunks[..n]), chunks[n]);
    }
    assert After(u, chunks).sent + [] == After(u, chunks).sent;
  }

  /** The error is that of the first failed frame. */
  lemma {:induction false} FailedEndsInError(u: Upstream, chunks: seq<Bytes>) returns (x: Bytes)
    requires Break(FRESH, Flatten(chunks)).None? && OpensInTime(chunks)
    requires FirstFailure(u, Scan(FRESH, Flatten(chunks)).frames).Some?
    ensures After(u, chunks).gate.dropRest
    ensures After(u, chunks).sent == x + u.ErrorBytes(FirstFailure(u, Scan(FRESH, Flatten(chunks)).frames).value.1)
    decreases |chunks|
  {
    hide Scan, Break, FirstFailure, PushOf, Format;
    AcceptedIffInTime(u, chunks);
    TracksBody(u, chunks);
    if chunks == [] {
      NothingShows(u);
    } else {
      var n := |chunks| - 1;
      var before := Scan(FRESH, Flatten(chunks[..n]));
      PrefixReads(chunks);
      AcceptedIffInTime(u, chunks[..n]);
      TracksBody(u, chunks[..n]);
      FirstFailureConcat(u, before.frames, Scan(before.reader, chunks[n]).frames);
      if FirstFailure(u, before.frames).Some? {
        x := FailedEndsInError(u, chunks[..n]);
        DroppedIsSilent(u, After(u, chunks[..n]), chunks[n]);
      } else {
        var message;
        x, message := DroppingStep(u, After(u, chunks[..n]), chunks[n]);
      }
    }
  }

  /**
   The bytes of the error for the first failed frame are the last of the whole output, wherever the reads cut that frame
   and even if only the end of the body closes it, whatever was stranded or mangled before.
   */
  lemma {:induction false} OutputEndsInError(u: Upstream, chunks: seq<Bytes>) returns (x: Bytes)
    requires Break(FRESH, Flatten(chunks)).None? && OpensInTime(chunks)
    requires FirstFailure(u, BodyFrames(Flatten(chunks))).Some?
    ensures Output(u, chunks) == x + u.ErrorBytes(FirstFailure(u, BodyFrames(Flatten(chunks))).value.1)
  {
    hide Scan, Break, Format, EndOfBody, Flatten, OpensInTime, FirstFailure, BodyFrames;
    var s, run := Scan(FRESH, Flatten(chunks)), After(u, chunks);
    AcceptedIffInTime(u, chunks);
    TracksBody(u, chunks);
    if FirstFailure(u, s.frames).Some? {
      x := FailedEndsInError(u, chunks);
      LaterFrameKeepsFailure(u, Flatten(chunks));
      assert run.sent + [] == run.sent;
    } else {
      x := run.sent;
      LastFrameFails(u, Flatten(chunks));
    }
  }

  lemma {:induction false} LaterFrameKeepsFailure(u: Upstream, body: Bytes)
    requires FirstFailure(u, Scan(FRESH, body).frames).Some?
    ensures FirstFailure(u, BodyFrames(body)) == FirstFailure(u, Scan(FRESH, body).frames)
    ensures var k := FirstFailure(u, BodyFrames(body)).value.0; BodyFrames(body)[..k] == Scan(FRESH, body).frames[..k]
  {
    hide Scan, FirstFailure, EndOfBody;
    match EndOfBody(Scan(FRESH, body).reader).1
    case Ok(Some(f)) =>
      FirstFailureConcat(u, Scan(FRESH, body).frames, [f]);
    case _ =>
  }

  lemma {:induction false} LastFrameFails(u: Upstream, body: Bytes)
    requires FirstFailure(u, Scan(FRESH, body).frames).None? && FirstFailure(u, BodyFrames(body)).Some?
    ensures var last := EndOfBody(Scan(FRESH, body).reader).1;
            && last.Ok? && last.value.Some? && u.Failure(last.value.value).Some?
            && FirstFailure(u, BodyFrames(body)) == Some((|Scan(FRESH, body).frames|, u.Failure(last.value.value).value))
    ensures BodyFrames(body)[..|Scan(FRESH, body).frames|] == Scan(FRESH, body).frames
  {
    hide Scan, EndOfBody;
    var s := Scan(FRESH, body);
    var f := EndOfBody(s.reader).1.value.value;
    FirstFailureConcat(u, s.frames, [f]);
    assert [f][..0] == [];
    assert FirstFailure(u, [f]) == if u.Failure(f).Some? then Some((0, u.Failure(f).value)) else None;
  }

  /**
   A failed frame, wherever the reads cut it and even if only the end of the body closes it: a
   reader of the output sees the frames before it, then one error frame, then nothing.
   */
  lemma {:induction false} OutputStopsAtFailedFrame(u: Upstream, chunks: seq<Bytes>)
    requires Readable(u, Flatten(chunks)) && OpensInTime(chunks) && NeverStrands(u, chunks) && NeverMangles(u, chunks)
    requires FirstFailure(u, BodyFrames(Flatten(chunks))).Some?
    ensures var (k, message) := FirstFailure(u, BodyFrames(Flatten(chunks))).value;
            Sees(u, Output(u, chunks), BodyFrames(Flatten(chunks))[..k] + [u.ErrorFrame(message)])
  {
    hide Scan, Break, Sees, Leads, Format, EndOfBody, Flatten, OpensInTime, FirstFailure, ErrorsPrintable, BodyFrames;
    var s, run := Scan(FRESH, Flatten(chunks)), After(u, chunks);
    InSyncAtEnd(u, chunks);
    if FirstFailure(u, s.frames).Some? {
      LaterFrameKeepsFailure(u, Flatten(chunks));
      assert run.sent + [] == run.sent;
    } else {
      LastFrameFails(u, Flatten(chunks));
      var message := FirstFailure(u, BodyFrames(Flatten(chunks))).value.1;
      ErrorIsSeen(u, message);
      SeesBoth(u, run.sent, u.ErrorBytes(message), s.frames, [u.ErrorFrame(message)]);
    }
  }

  lemma {:induction false} FollowsEnd(d: Reader, r: Reader)
    requires Follows(d, r)
    ensures EndOfBody(d).1.Ok? == EndOfBody(r).1.Ok?
    ensures EndOfBody(d).1.Ok? ==>
              var fd, fr := EndOfBody(d).1.value, EndOfBody(r).1.value;
              (fd.Some? ==> fd == fr) && (fd.None? && fr.Some? ==> IsBlank(fr.value))
  {
    if r.buffer != [] {
      FollowsLine(d.(buffer := []), r.(buffer := []), TrimEndCr(Lossy(r.buffer)));
    }
  }

  /** Without any vendor error, what was forwarded and what is held reads as the whole body. */
  lemma {:induction false} OutputReadsAsBody(u: Upstream, chunks: seq<Bytes>)
    requires Readable(u, Flatten(chunks)) && OpensInTime(chunks) && NeverStrands(u, chunks) && NeverMangles(u, chunks)
    requires !ShowsError(u, Scan(FRESH, Flatten(chunks)).frames)
    ensures var run := After(u, chunks);
            Visible(u, BodyFrames(run.sent + run.gate.held)) == Visible(u, BodyFrames(Flatten(chunks)))
  {
    var run, s := After(u, chunks), Scan(FRESH, Flatten(chunks));
    InSyncAtEnd(u, chunks);
    VendorErrorIffShown(u, chunks);
    NothingHeldAfterError(u, chunks);
    var d := Scan(FRESH, run.gate.held).reader;
    ScanConcat(FRESH, run.sent, run.gate.held);
    var seen := Scan(FRESH, run.sent).frames;
    assert seen + [] == seen;
    assert Scan(FRESH, run.sent + run.gate.held) == Scanned(d, seen);
    FollowsEnd(d, s.reader);
    SameLast(u, seen, s.frames, EndOfBody(d).1, EndOfBody(s.reader).1);
  }

  function WithLast(frames: seq<Frame>, last: Result<Option<Frame>, ReadError>): seq<Frame> {
    match last
    case Ok(Some(f)) => frames + [f]
    case _ => frames
  }

  lemma {:induction false} SameLast(u: Upstream, a: seq<Frame>, b: seq<Frame>,
                                    la: Result<Option<Frame>, ReadError>, lb: Result<Option<Frame>, ReadError>)
    requires Visible(u, a) == Visible(u, b) && la.Ok? == lb.Ok?
    requires la.Ok? ==> (la.value.Some? ==> la == lb) && (la.value.None? && lb.value.Some? ==> IsBlank(lb.value.value))
    ensures Visible(u, WithLast(a, la)) == Visible(u, WithLast(b, lb))
  {
    if lb.Ok? && lb.value.Some? {
      var f := lb.value.value;
      VisibleConcat(u, a, [f]);
      VisibleConcat(u, b, [f]);
      VisibleOne(u, f);
      assert Visible(u, b) + [] == Visible(u, b);
    }
  }

  // ---- what stranded bytes do ----

  /** Four reads: a frame, a colon, the line feed after it, another frame. */
  function SplitComment(a: Frame, b: Frame): seq<Bytes> {
    [Format(a), [COLON], [LF], Format(b)]
  }

  /** Two frames that no size limit or vendor error concerns. */
  predicate Ordinary(u: Upstream, a: Frame, b: Frame) {
    && u.responses && |Format(a)| <= MAX_UPSTREAM_BODY
    && (forall f | f in {a, b} :: IsTextFrame(f) && IsClean(f) && Break(FRESH, Format(f)).None?
                                  && u.Failure(f).None? && !u.wrapped(f.data))
    && b.event.None? && LF !in b.data
  }

  lemma {:induction false} ScanColonThenFeed()
    ensures Scan(FRESH, [COLON]) == Scanned(Reader([COLON], None, [], false), []) && Break(FRESH, [COLON]).None?
    ensures Scan(Reader([COLON], None, [], false), [LF]) == Scanned(FRESH, [])
    ensures Break(Reader([COLON], None, [], false), [LF]).None?
  {
  }

  /** One frame without a vendor error. */
  lemma {:induction false} OneFrame(u: Upstream, f: Frame)
    requires u.Failure(f).None? && !u.wrapped(f.data)
    ensures FirstFailure(u, [f]).None? && !AnyWrapped(u, [f])
    ensures NotDone(u, [f]) == if u.IsDone(f) then [] else [f]
  {
    assert [f][..0] == [];
    assert AnyWrapped(u, [f]) == (AnyWrapped(u, []) || u.wrapped(f.data));
  }

  lemma {:induction false} PassOneFrame(u: Upstream, g: GateState, f: Frame)
    requires g.reader == FRESH && !g.dropRest && !g.sawVendorError && IsTextFrame(f) && IsClean(f)
    requires g.sawFrame || |g.held| + |Format(f)| <= MAX_UPSTREAM_BODY
    requires Break(FRESH, Format(f)).None? && u.Failure(f).None? && !u.wrapped(f.data)
    ensures PushOf(u, g, Format(f)).1 == Forward(g.held + Format(f))
    ensures var next := PushOf(u, g, Format(f)).0;
            next.reader == FRESH && next.sawFrame && !next.dropRest && !next.sawVendorError && next.held == []
  {
    hide Scan, Break, Format, FormatAll, NotDone, FirstFailure, AnyWrapped, AnyEnds, IsTextFrame, IsClean;
    ReadsCleanFrame(f);
    OneFrame(u, f);
  }

  /** The run after each of the four reads. */
  function SplitRun(u: Upstream, a: Frame, b: Frame, n: nat): Run
    requires n <= 4
  {
    if n == 0 then START else StepRun(u, SplitRun(u, a, b, n - 1), SplitComment(a, b)[n - 1])
  }

  lemma {:induction false} SplitRunIsAfter(u: Upstream, a: Frame, b: Frame, n: nat)
    requires n <= 4
    ensures After(u, SplitComment(a, b)[..n]) == SplitRun(u, a, b, n)
  {
    if n > 0 {
      SplitRunIsAfter(u, a, b, n - 1);
      assert SplitComment(a, b)[..n][..n - 1] == SplitComment(a, b)[..n - 1];
    }
  }

  lemma {:induction false} AfterFrame(u: Upstream, a: Frame, b: Frame)
    requires Ordinary(u, a, b)
    ensures var run := SplitRun(u, a, b, 1);
            && run.failed.None? && run.sent == Format(a)
            && run.gate.reader == FRESH && run.gate.held == []
            && run.gate.sawFrame && !run.gate.sawVendorError && !run.gate.dropRest
  {
    PassOneFrame(u, NEW, a);
    assert [] + Format(a) == Format(a);
  }

  lemma {:induction false} AfterColon(u: Upstream, a: Frame, b: Frame)
    requires Ordinary(u, a, b)
    ensures var run := SplitRun(u, a, b, 2);
            && run.failed.None? && run.sent == Format(a)
            && run.gate.reader == Reader([COLON], None, [], false) && run.gate.held == [COLON]
            && run.gate.sawFrame && !run.gate.sawVendorError && !run.gate.dropRest
  {
    AfterFrame(u, a, b);
    assert SplitComment(a, b)[1] == [COLON] && [] + [COLON] == [COLON];
    ScanColonThenFeed();
  }

  lemma {:induction false} AfterFeed(u: Upstream, a: Frame, b: Frame)
    requires Ordinary(u, a, b)
    ensures var run := SplitRun(u, a, b, 3);
            && run.failed.None? && run.sent == Format(a) + [LF]
            && run.gate.reader == FRESH && run.gate.held == [COLON]
            && run.gate.sawFrame && !run.gate.sawVendorError && !run.gate.dropRest
    ensures Strands(u, SplitRun(u, a, b, 2).gate, [LF])
  {
    AfterColon(u, a, b);
    ScanColonThenFeed();
  }

  lemma {:induction false} GateOnSplitComment(u: Upstream, a: Frame, b: Frame)
    requires Ordinary(u, a, b)
    ensures var run := After(u, SplitComment(a, b));
            run.failed.None? && run.sent == Format(a) + [LF] + ([COLON] + Format(b))
    ensures !NeverStrands(u, SplitComment(a, b))
  {
    var chunks := SplitComment(a, b);
    AfterFeed(u, a, b);
    PassOneFrame(u, SplitRun(u, a, b, 3).gate, b);
    assert chunks[..4] == chunks && chunks[2] == [LF];
    SplitRunIsAfter(u, a, b, 4);
    SplitRunIsAfter(u, a, b, 2);
    StrandsAt(u, chunks, 2);
  }

  lemma {:induction false} ScanComment(x: Bytes)
    requires LF !in x
    ensures Scan(FRESH, [COLON] + x + [LF]) == Scanned(FRESH, [])
  {
    var line := [COLON] + x;
    ScanWholeLine(FRESH, line);
    assert Chomp(line) == [COLON] + Chomp(x);
    LossySplitsAtAscii([], COLON, Chomp(x));
    assert [] + [COLON] + Chomp(x) == [COLON] + Chomp(x);
    assert LineOf(line)[0] == COLON;
  }

  lemma {:induction false} ScanCommentedFrame(b: Frame)
    requires IsTextFrame(b) && b.event.None? && LF !in b.data
    ensures Scan(FRESH, [COLON] + Format(b)) == Scanned(FRESH, [])
  {
    SplitJoin([b.data]);
    var x := DATA + [COLON, SPACE] + b.data;
    assert DataLines([b.data]) == x + [LF] by {
      assert [b.data][..0] == [];
    }
    assert [COLON] + Format(b) == ([COLON] + x + [LF]) + [LF];
    ScanComment(x);
    ScanConcat(FRESH, [COLON] + x + [LF], [LF]);
    ScanWholeLine(FRESH, []);
    assert [] + [LF] == [LF];
  }

  /**
   A comment split over two reads after the first frame: the next frame is glued to its first half
   and a reader of the output never sees it.
   */
  lemma {:induction false} SplitCommentLosesFrame(u: Upstream, a: Frame, b: Frame)
    requires Ordinary(u, a, b)
    ensures var chunks := SplitComment(a, b);
            && After(u, chunks).failed.None? && !NeverStrands(u, chunks)
            && Scan(FRESH, Flatten(chunks)).frames == [a, b]
            && Scan(FRESH, After(u, chunks).sent) == Scanned(FRESH, [a])
  {
    GateOnSplitComment(u, a, b);
    FlattenSplitComment(a, b);
    ReadsWithComment(a, b);
    ReadsGluedComment(a, b);
  }

  /** The body as it was sent. */
  lemma {:induction false} ReadsWithComment(a: Frame, b: Frame)
    requires IsTextFrame(a) && IsClean(a) && IsTextFrame(b) && IsClean(b)
    ensures Scan(FRESH, Format(a) + [COLON, LF] + Format(b)) == Scanned(FRESH, [a, b])
  {
    ReadsCleanFrame(a);
    ReadsCleanFrame(b);
    ScanComment([]);
    assert [COLON] + [] + [LF] == [COLON, LF];
    ScanConcat(FRESH, Format(a), [COLON, LF]);
    ScanConcat(FRESH, Format(a) + [COLON, LF], Format(b));
    assert [a] + [] + [b] == [a, b];
  }

  /** The body as the gate forwards it. */
  lemma {:induction false} ReadsGluedComment(a: Frame, b: Frame)
    requires IsTextFrame(a) && IsClean(a) && IsTextFrame(b) && b.event.None? && LF !in b.data
    ensures Scan(FRESH, Format(a) + [LF] + ([COLON] + Format(b))) == Scanned(FRESH, [a])
  {
    ReadsCleanFrame(a);
    ScanFeedAfter(Format(a));
    ScanCommentedFrame(b);
    ScanConcat(FRESH, Format(a) + [LF], [COLON] + Format(b));
    assert [a] + [] == [a];
  }

  lemma {:induction false} FlattenSplitComment(a: Frame, b: Frame)
    ensures Flatten(SplitComment(a, b)) == Format(a) + [COLON, LF] + Format(b)
  {
    var chunks := SplitComment(a, b);
    var c3, c2, c1: seq<Bytes> := chunks[..3], chunks[..2], chunks[..1];
    assert c3[..2] == c2 && c2[..1] == c1 && c1[..0] == [];
    assert Flatten(c1) == [] + Format(a);
    assert Flatten(c2) == Format(a) + [COLON];
    assert Flatten(c3) == Format(a) + [COLON] + [LF] == Format(a) + [COLON, LF];
  }

  /** A line feed after a closed output changes nothing. */
  lemma {:induction false} ScanFeedAfter(sent: Bytes)
    requires Scan(FRESH, sent).reader == FRESH
    ensures Scan(FRESH, sent + [LF]) == Scan(FRESH, sent)
  {
    ScanConcat(FRESH, sent, [LF]);
    ScanWholeLine(FRESH, []);
    assert [] + [LF] == [LF];
    assert Scan(FRESH, sent).frames + [] == Scan(FRESH, sent).frames;
  }

  // ---- what printing again does to carriage returns ----

  /** One read: a data line that ends in two carriage returns, the blank line after it, and the start of a comment. */
  function DoubledCr(v: Bytes): Bytes {
    FieldLine(DATA, v + [CR] + [CR]) + [LF] + [COLON]
  }

  lemma {:induction false} DoubledCrReads(v: Bytes)
    requires IsLine(v)
    ensures Scan(FRESH, DoubledCr(v)) == Scanned(Reader([COLON], None, [], false), [Frame(None, v + [CR])])
  {
    hide Scan, IsText, FieldLine;
    var line := v + [CR];
    EmptyIsText();
    TextJoins(v, CR, []);
    assert line + [] == line;
    TextJoins(line, CR, []);
    assert line + [CR] + [] == line + [CR] && Chomp(line + [CR]) == line;
    ScanFieldLine(FRESH, DATA, line + [CR]);
    var open := Reader([], None, [line], true);
    assert [] + [line] == [line];
    ScanConcat(FRESH, FieldLine(DATA, line + [CR]), [LF]);
    ScanWholeLine(open, []);
    assert [] + [LF] == [LF];
    ScanConcat(FRESH, FieldLine(DATA, line + [CR]) + [LF], [COLON]);
    ScanWithinLine(FRESH, [COLON]);
    assert [] + [COLON] == [COLON];
    assert [] + [Frame(None, line)] + [] == [Frame(None, line)];
  }

  lemma EmptyIsText()
    ensures IsText([])
  {
  }

  lemma {:induction false} MangledReads(v: Bytes)
    requires IsLine(v) && !EndsInCr(v)
    ensures Scan(FRESH, Format(Frame(None, v + [CR]))) == Scanned(FRESH, [Frame(None, v)])
    ensures IsTextFrame(Frame(None, v + [CR])) && !IsClean(Frame(None, v + [CR]))
  {
    hide Scan, IsText, Format;
    var f := Frame(None, v + [CR]);
    EmptyIsText();
    TextJoins(v, CR, []);
    assert v + [CR] + [] == v + [CR];
    SplitJoin([f.data]);
    assert Join([f.data]) == f.data && f.data in Pieces(f.data);
    ScanFormatted(f);
    assert ChompAll([f.data]) == [v];
  }

  lemma {:induction false} GateOnDoubledCr(u: Upstream, v: Bytes)
    requires u.responses && IsLine(v) && Break(FRESH, DoubledCr(v)).None? && |DoubledCr(v)| <= MAX_UPSTREAM_BODY
    requires var f := Frame(None, v + [CR]); u.Failure(f).None? && !u.wrapped(f.data) && !u.IsDone(f)
    ensures var run := StepRun(u, START, DoubledCr(v));
            run.failed.None? && run.sent == Format(Frame(None, v + [CR]))
  {
    hide Scan, Break, Format, FormatAll, NotDone, FirstFailure, AnyWrapped, AnyEnds, DoubledCr;
    DoubledCrReads(v);
    OneFrame(u, Frame(None, v + [CR]));
    FormatAllOne(Frame(None, v + [CR]));
    assert [] + Format(Frame(None, v + [CR])) == Format(Frame(None, v + [CR]));
  }

  /** The frame that the body shows with a carriage return is seen without it in the output. */
  lemma {:induction false} DoubledCrIsLost(u: Upstream, v: Bytes)
    requires u.responses && IsLine(v) && Break(FRESH, DoubledCr(v)).None? && |DoubledCr(v)| <= MAX_UPSTREAM_BODY
    requires var f := Frame(None, v + [CR]); u.Failure(f).None? && !u.wrapped(f.data) && !u.IsDone(f)
    requires !EndsInCr(v)
    ensures var chunks := [DoubledCr(v)];
            && After(u, chunks).failed.None? && NeverStrands(u, chunks) && !NeverMangles(u, chunks)
            && Scan(FRESH, Flatten(chunks)).frames == [Frame(None, v + [CR])]
            && Scan(FRESH, After(u, chunks).sent) == Scanned(FRESH, [Frame(None, v)])
  {
    hide Scan, Break, Format, StepRun, DoubledCr, AnyWrapped, IsTextFrame, IsClean;
    var x, f := DoubledCr(v), Frame(None, v + [CR]);
    var chunks: seq<Bytes> := [x];
    assert chunks[..0] == [];
    OneChunk(x);
    assert After(u, chunks[..0]) == START && After(u, chunks) == StepRun(u, START, chunks[0]);
    DoubledCrReads(v);
    MangledReads(v);
    GateOnDoubledCr(u, v);
    OneFrame(u, f);
    assert !AreClean([f]);
  }
}
