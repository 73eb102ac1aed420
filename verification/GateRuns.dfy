/** Whole runs of the same-wire gate: what has been sent after any cutting of the body into chunks. */
module GateRuns {
  import opened Utf8
  import opened Sse
  import opened SseFormat
  import opened Gate

  /** The gate, the bytes forwarded so far, and the error that ended the run early. */
  datatype Run = Run(gate: GateState, sent: Bytes, failed: Option<string>)

  const START: Run := Run(NEW, [], None)

  function StepRun(u: Upstream, run: Run, chunk: Bytes): Run {
    if run.failed.Some? then run
    else
      var (g, r) := PushOf(u, run.gate, chunk);
      match r
      case Hold => Run(g, run.sent, None)
      case Forward(bytes) => Run(g, run.sent + bytes, None)
      case Fail(message) => Run(g, run.sent, Some(message))
  }

  function RunFrom(u: Upstream, run: Run, chunks: seq<Bytes>): Run {
    if chunks == [] then run
    else StepRun(u, RunFrom(u, run, chunks[..|chunks| - 1]), chunks[|chunks| - 1])
  }

  function After(u: Upstream, chunks: seq<Bytes>): Run {
    RunFrom(u, START, chunks)
  }

  /** Everything the driver sends for a body that ends after `chunks`. */
  function Output(u: Upstream, chunks: seq<Bytes>): Bytes {
    After(u, chunks).sent + EndBytes(u, EndOf(u, After(u, chunks).gate))
  }

  lemma {:induction false} FirstFailureConcat(u: Upstream, a: seq<Frame>, b: seq<Frame>)
    ensures FirstFailure(u, a + b)
         == if FirstFailure(u, a).Some? then FirstFailure(u, a)
            else match FirstFailure(u, b)
              case None => None
              case Some((k, message)) => Some((|a| + k, message))
    decreases |b|
  {
    if b == [] {
      assert a + b == a;
    } else {
      var n := |b| - 1;
      assert (a + b)[..|a + b| - 1] == a + b[..n];
      FirstFailureConcat(u, a, b[..n]);
    }
  }

  // ---- wires other than Responses: bytes pass unchanged ----

  /**
   While no vendor error has been seen, what was forwarded and what is held is the input; nothing
   is forwarded and at most the limit is held until a frame is seen, and nothing is held after.
   */
  lemma {:induction false} PassesBytesThrough(u: Upstream, chunks: seq<Bytes>)
    requires !u.responses && After(u, chunks).failed.None? && !After(u, chunks).gate.sawVendorError
    ensures var run := After(u, chunks);
            && run.sent + run.gate.held == Flatten(chunks)
            && (if run.gate.sawFrame then run.gate.held == [] else run.sent == [] && |run.gate.held| <= MAX_UPSTREAM_BODY)
            && !run.gate.dropRest
    decreases |chunks|
  {
    if chunks != [] {
      var n := |chunks| - 1;
      PassesBytesThrough(u, chunks[..n]);
      PassesChunk(u, After(u, chunks[..n]), chunks[n]);
    }
  }

  lemma {:induction false} PassesChunk(u: Upstream, run: Run, chunk: Bytes)
    requires !u.responses && run.failed.None? && !run.gate.dropRest && !run.gate.sawVendorError
    requires if run.gate.sawFrame then run.gate.held == [] else run.sent == []
    requires StepRun(u, run, chunk).failed.None? && !StepRun(u, run, chunk).gate.sawVendorError
    ensures var next := StepRun(u, run, chunk);
            && next.sent + next.gate.held == run.sent + run.gate.held + chunk
            && (if next.gate.sawFrame then next.gate.held == [] else next.sent == [] && |next.gate.held| <= MAX_UPSTREAM_BODY)
            && !next.gate.dropRest
  {
    hide Scan, Break, FormatAll, NotDone, FirstFailure, AnyEnds;
    ConcatAssoc(run.sent, run.gate.held, chunk);
    assert run.sent + [] == run.sent;
    assert StepRun(u, run, chunk).sent + [] == StepRun(u, run, chunk).sent;
  }

  /** At the end of such a body everything sent, less an appended error, is the whole input. */
  lemma {:induction false} PassesWholeBody(u: Upstream, chunks: seq<Bytes>)
    requires !u.responses && After(u, chunks).failed.None? && !After(u, chunks).gate.sawVendorError
    ensures var run := After(u, chunks);
            match EndOf(u, run.gate)
            case Done(tail) => run.sent + tail == Flatten(chunks)
            case Append(tail, _) => run.sent + tail == Flatten(chunks)
            case Replace(_) => run.sent == [] && !run.gate.sawFrame
            case Promote(_) => run.sent == [] && !run.gate.sawFrame
  {
    PassesBytesThrough(u, chunks);
    EndKeepsHeld(u, After(u, chunks).gate);
  }

  lemma {:induction false} EndKeepsHeld(u: Upstream, g: GateState)
    requires !u.responses && !g.sawVendorError && !g.dropRest
    ensures match EndOf(u, g)
            case Done(tail) => tail == g.held
            case Append(tail, _) => tail == g.held
            case Replace(_) => !g.sawFrame
            case Promote(_) => !g.sawFrame
  {
  }

  // ---- after a vendor error ----

  /** The error text is one line of JSON: an object, so never `[DONE]`. */
  ghost predicate ErrorsPrintable(u: Upstream) {
    forall message ::
      var f := u.ErrorFrame(message);
      IsLine(f.data) && !EndsInCr(f.data) && f.data != [] && !u.IsDone(f)
  }

  predicate NoneDone(u: Upstream, frames: seq<Frame>) {
    forall f | f in frames :: !u.IsDone(f)
  }

  lemma {:induction false} NotDoneMeaning(u: Upstream, frames: seq<Frame>)
    ensures NoneDone(u, NotDone(u, frames))
    ensures forall f | f in NotDone(u, frames) :: f in frames
    decreases |frames|
  {
    if frames != [] {
      NotDoneMeaning(u, frames[..|frames| - 1]);
    }
  }

  lemma {:induction false} FormatAllConcat(a: seq<Frame>, b: seq<Frame>)
    ensures FormatAll(a + b) == FormatAll(a) + FormatAll(b)
    decreases |b|
  {
    if b == [] {
      assert a + b == a;
    } else {
      var n := |b| - 1;
      assert (a + b)[..|a + b| - 1] == a + b[..n];
      FormatAllConcat(a, b[..n]);
      ConcatAssoc(FormatAll(a), FormatAll(b[..n]), Format(b[n]));
    }
  }

  lemma FormatAllOne(f: Frame)
    ensures FormatAll([f]) == Format(f)
  {
  }

  /** Once the error flag is up nothing is held. */
  predicate HoldsNothing(g: GateState) {
    (g.sawVendorError ==> g.held == [] && g.sawFrame) && (g.dropRest ==> g.sawVendorError)
  }

  lemma PushHoldsNothing(u: Upstream, g: GateState, chunk: Bytes)
    requires HoldsNothing(g) && !PushOf(u, g, chunk).1.Fail?
    ensures HoldsNothing(PushOf(u, g, chunk).0)
  {
  }

  lemma FailedPushHoldsNothing(u: Upstream, g: GateState, chunk: Bytes)
    requires HoldsNothing(g) && PushOf(u, g, chunk).1.Fail?
    ensures HoldsNothing(PushOf(u, g, chunk).0)
  {
  }

  /** Once the error flag is up nothing is held, in every run. */
  lemma {:induction false} NothingHeldAfterError(u: Upstream, chunks: seq<Bytes>)
    ensures HoldsNothing(After(u, chunks).gate)
    decreases |chunks|
  {
    if chunks != [] {
      var n := |chunks| - 1;
      var before := After(u, chunks[..n]);
      NothingHeldAfterError(u, chunks[..n]);
      if before.failed.None? {
        if PushOf(u, before.gate, chunks[n]).1.Fail? {
          FailedPushHoldsNothing(u, before.gate, chunks[n]);
        } else {
          PushHoldsNothing(u, before.gate, chunks[n]);
        }
      }
    }
  }

  /** What is printed for `frames` after a vendor error: those up to the first failed one, less the terminator, and its error. */
  function Rewritten(u: Upstream, frames: seq<Frame>): seq<Frame> {
    match FirstFailure(u, frames)
    case Some((k, message)) => NotDone(u, frames[..k]) + [u.ErrorFrame(message)]
    case None => NotDone(u, frames)
  }

  lemma {:induction false} RewrittenConcat(u: Upstream, a: seq<Frame>, b: seq<Frame>)
    ensures Rewritten(u, a + b)
         == if FirstFailure(u, a).Some? then Rewritten(u, a) else NotDone(u, a) + Rewritten(u, b)
  {
    hide NotDone, FirstFailure;
    FirstFailureConcat(u, a, b);
    match (FirstFailure(u, a), FirstFailure(u, b))
    case (Some((k, _)), _) => assert (a + b)[..k] == a[..k];
    case (None, Some((k, message))) =>
      assert (a + b)[..|a| + k] == a + b[..k];
      NotDoneConcat(u, a, b[..k]);
      ConcatAssoc(NotDone(u, a), NotDone(u, b[..k]), [u.ErrorFrame(message)]);
    case (None, None) => NotDoneConcat(u, a, b);
  }

  lemma {:induction false} RewrittenNotDone(u: Upstream, frames: seq<Frame>)
    requires ErrorsPrintable(u)
    ensures NoneDone(u, Rewritten(u, frames))
  {
    hide NotDone, FirstFailure;
    match FirstFailure(u, frames)
    case Some((k, message)) =>
      NotDoneMeaning(u, frames[..k]);
      assert !u.IsDone(u.ErrorFrame(message));
    case None => NotDoneMeaning(u, frames);
  }

  /** A gate that has seen a vendor error and still reads. */
  predicate PrintsOnly(run: Run) {
    run.failed.None? && HoldsNoMore(run.gate) && !run.gate.dropRest
  }

  lemma {:induction false} StepAfterError(u: Upstream, run: Run, c: Bytes)
    requires PrintsOnly(run) && Break(run.gate.reader, c).None?
    ensures var s, next := Scan(run.gate.reader, c), StepRun(u, run, c);
            && next.sent == run.sent + FormatAll(Rewritten(u, s.frames))
            && if FirstFailure(u, s.frames).Some? then next.gate.dropRest && next.failed.None?
               else PrintsOnly(next) && next.gate.reader == s.reader
  {
    hide Scan, Break, FormatAll, NotDone, FirstFailure, AnyEnds;
    var frames := Scan(run.gate.reader, c).frames;
    NothingPrinted(u);
    match FirstFailure(u, frames)
    case Some((k, message)) =>
      FormatAllConcat(NotDone(u, frames[..k]), [u.ErrorFrame(message)]);
      FormatAllOne(u.ErrorFrame(message));
    case None =>
      assert run.sent + [] == run.sent;
  }

  lemma NothingPrinted(u: Upstream)
    ensures NotDone(u, []) == [] && FormatAll([]) == [] && FirstFailure(u, []) == None
  {
  }

  lemma {:induction false} AppendPrinted(sent: Bytes, a: seq<Frame>, b: seq<Frame>)
    ensures sent + FormatAll(a) + FormatAll(b) == sent + FormatAll(a + b)
  {
    FormatAllConcat(a, b);
    ConcatAssoc(sent, FormatAll(a), FormatAll(b));
  }

  /** What a run sends once it reads no more. */
  lemma {:induction false} SilentStep(u: Upstream, run: Run, c: Bytes)
    requires run.failed.Some? || run.gate.dropRest || (PrintsOnly(run) && Break(run.gate.reader, c).Some?)
    ensures StepRun(u, run, c).sent == run.sent
    ensures run.failed.Some? || !run.gate.dropRest ==> StepRun(u, run, c).failed.Some?
    ensures run.gate.dropRest ==> StepRun(u, run, c).gate.dropRest
  {
    assert run.sent + [] == run.sent;
  }

  lemma {:induction false} SilentRun(u: Upstream, run: Run, later: seq<Bytes>)
    requires run.failed.Some? || run.gate.dropRest
    ensures RunFrom(u, run, later).sent == run.sent
    ensures RunFrom(u, run, later).failed.Some? || RunFrom(u, run, later).gate.dropRest
    decreases |later|
  {
    if later != [] {
      SilentRun(u, run, later[..|later| - 1]);
      SilentStep(u, RunFrom(u, run, later[..|later| - 1]), later[|later| - 1]);
    }
  }

  predicate HoldsNoMore(g: GateState) {
    g.sawVendorError && g.sawFrame && g.held == []
  }

  lemma {:induction false} StepHoldsNoMore(u: Upstream, run: Run, c: Bytes)
    requires HoldsNoMore(run.gate)
    ensures HoldsNoMore(StepRun(u, run, c).gate)
  {
  }

  lemma {:induction false} RunHoldsNoMore(u: Upstream, run: Run, later: seq<Bytes>)
    requires HoldsNoMore(run.gate)
    ensures HoldsNoMore(RunFrom(u, run, later).gate)
    decreases |later|
  {
    if later != [] {
      RunHoldsNoMore(u, run, later[..|later| - 1]);
      StepHoldsNoMore(u, RunFrom(u, run, later[..|later| - 1]), later[|later| - 1]);
    }
  }

  lemma {:induction false} PrintedAfterError(u: Upstream, run: Run, later: seq<Bytes>) returns (n: nat)
    requires PrintsOnly(run)
    ensures n <= |later| && Break(run.gate.reader, Flatten(later[..n])).None?
    ensures n < |later| ==> Break(run.gate.reader, Flatten(later[..n + 1])).Some?
    ensures var s, end := Scan(run.gate.reader, Flatten(later[..n])), RunFrom(u, run, later);
            && end.sent == run.sent + FormatAll(Rewritten(u, s.frames))
            && (if FirstFailure(u, s.frames).Some? then end.gate.dropRest
                else if n < |later| then end.failed.Some?
                else PrintsOnly(end) && end.gate.reader == s.reader)
    decreases |later|
  {
    hide Scan, Break, FormatAll, FirstFailure, Rewritten, PushOf;
    if later == [] {
      n := 0;
      NothingRewritten(u, run.gate.reader);
      assert later[..0] == [] && run.sent + [] == run.sent;
    } else {
      var m := |later| - 1;
      var front, c := later[..m], later[m];
      n := PrintedAfterError(u, run, front);
      assert front[..n] == later[..n];
      var s := Scan(run.gate.reader, Flatten(front[..n]));
      var before := RunFrom(u, run, front);
      if n < m {
        assert front[..n + 1] == later[..n + 1];
        SilentStep(u, before, c);
      } else {
        assert front[..m] == front && later[..m + 1] == later;
        BreakConcat(run.gate.reader, Flatten(front), c);
        if Break(s.reader, c).Some? {
          SilentStep(u, before, c);
        } else {
          n := m + 1;
          MorePrinted(u, run, Flatten(front), c, before);
        }
      }
    }
  }

  /**
   From a vendor error on a run that still reads forwards the printed form of the frames its reader closes from the later
   chunks, up to the one it refuses if there is one: those before the first failed frame, less the terminator, and its
   error. A run that reads no more forwards nothing.
   */
  lemma {:induction false} OnlyPrintedFramesAfterError(u: Upstream, run: Run, later: seq<Bytes>) returns (n: nat)
    requires HoldsNoMore(run.gate)
    ensures n <= |later| && HoldsNoMore(RunFrom(u, run, later).gate)
    ensures var end, read := RunFrom(u, run, later), Flatten(later[..n]);
            if run.failed.Some? || run.gate.dropRest then end.sent == run.sent
            else
              && Break(run.gate.reader, read).None?
              && (n < |later| ==> Break(run.gate.reader, Flatten(later[..n + 1])).Some?)
              && end.sent == run.sent + FormatAll(Rewritten(u, Scan(run.gate.reader, read).frames))
              && (ErrorsPrintable(u) ==> NoneDone(u, Rewritten(u, Scan(run.gate.reader, read).frames)))
  {
    hide Scan, Break, FormatAll, FirstFailure, Rewritten, ErrorsPrintable, NoneDone, RunFrom, Flatten;
    RunHoldsNoMore(u, run, later);
    if run.failed.Some? || run.gate.dropRest {
      n := 0;
      SilentRun(u, run, later);
    } else {
      n := PrintedAfterError(u, run, later);
      if ErrorsPrintable(u) {
        RewrittenNotDone(u, Scan(run.gate.reader, Flatten(later[..n])).frames);
      }
    }
  }

  lemma NothingRewritten(u: Upstream, r: Reader)
    ensures Scan(r, Flatten([])) == Scanned(r, []) && Break(r, Flatten([])).None?
    ensures FormatAll(Rewritten(u, [])) == [] && FirstFailure(u, []) == None
  {
  }

  lemma {:induction false} MorePrinted(u: Upstream, run: Run, body: Bytes, c: Bytes, before: Run)
    requires var s := Scan(run.gate.reader, body);
             && before.sent == run.sent + FormatAll(Rewritten(u, s.frames))
             && (if FirstFailure(u, s.frames).Some? then before.gate.dropRest
                 else PrintsOnly(before) && before.gate.reader == s.reader && Break(s.reader, c).None?)
    ensures var s, end := Scan(run.gate.reader, body + c), StepRun(u, before, c);
            && end.sent == run.sent + FormatAll(Rewritten(u, s.frames))
            && (if FirstFailure(u, s.frames).Some? then end.gate.dropRest
                else PrintsOnly(end) && end.gate.reader == s.reader)
  {
    hide Scan, Break, FormatAll, FirstFailure, NotDone, PushOf;
    var s := Scan(run.gate.reader, body);
    ScanConcat(run.gate.reader, body, c);
    var more := Scan(s.reader, c).frames;
    FirstFailureConcat(u, s.frames, more);
    RewrittenConcat(u, s.frames, more);
    if FirstFailure(u, s.frames).Some? {
      DroppedStep(u, before, c);
    } else {
      StepAfterError(u, before, c);
      AppendPrinted(run.sent, NotDone(u, s.frames), Rewritten(u, more));
    }
  }

  lemma {:induction false} DroppedStep(u: Upstream, run: Run, c: Bytes)
    requires run.gate.dropRest
    ensures StepRun(u, run, c).sent == run.sent && StepRun(u, run, c).gate.dropRest
  {
  }

  /** The printed form of the frame that the end of the body closes, unless it is the terminator or a start of it. */
  predicate PrintsLast(u: Upstream, g: GateState, tail: Bytes) {
    match EndOfBody(g.reader).1
    case Ok(Some(f)) => tail == Format(f) && !u.IsDonePrefix(f)
    case _ => false
  }

  /** The finish of such a run adds at most one printed frame that is no prefix of `[DONE]`. */
  lemma {:induction false} EndAfterError(u: Upstream, g: GateState)
    requires HoldsNoMore(g)
    ensures match EndOf(u, g)
            case Done(tail) => tail == [] || PrintsLast(u, g, tail)
            case Append(tail, _) => tail == [] || PrintsLast(u, g, tail)
            case Replace(_) => !g.dropRest && EndOfBody(g.reader).1.Ok?
            case Promote(_) => false
  {
  }

  // ---- the Responses wire: what a reader of the output sees ----

  /** The frames that carry something: neither blank nor `[DONE]`. */
  function Visible(u: Upstream, frames: seq<Frame>): seq<Frame> {
    NotDone(u, DropBlank(frames))
  }

  lemma {:induction false} NotDoneConcat(u: Upstream, a: seq<Frame>, b: seq<Frame>)
    ensures NotDone(u, a + b) == NotDone(u, a) + NotDone(u, b)
    decreases |b|
  {
    if b == [] {
      assert a + b == a;
    } else {
      var n := |b| - 1;
      assert (a + b)[..|a + b| - 1] == a + b[..n];
      NotDoneConcat(u, a, b[..n]);
    }
  }

  lemma {:induction false} VisibleConcat(u: Upstream, a: seq<Frame>, b: seq<Frame>)
    ensures Visible(u, a + b) == Visible(u, a) + Visible(u, b)
  {
    DropBlankConcat(a, b);
    NotDoneConcat(u, DropBlank(a), DropBlank(b));
  }

  lemma VisibleOne(u: Upstream, f: Frame)
    ensures Visible(u, [f]) == if IsBlank(f) || u.IsDone(f) then [] else [f]
  {
    assert [f][..0] == [];
    assert DropBlank([f]) == if IsBlank(f) then [] else [f];
    assert NotDone(u, [f]) == if u.IsDone(f) then [] else [f];
  }

  lemma {:induction false} VisibleNotDone(u: Upstream, frames: seq<Frame>)
    ensures Visible(u, NotDone(u, frames)) == Visible(u, frames)
    decreases |frames|
  {
    if frames != [] {
      var n := |frames| - 1;
      var f := frames[n];
      VisibleNotDone(u, frames[..n]);
      assert frames == frames[..n] + [f];
      VisibleConcat(u, frames[..n], [f]);
      VisibleOne(u, f);
      if !u.IsDone(f) {
        VisibleConcat(u, NotDone(u, frames[..n]), [f]);
      } else {
        assert NotDone(u, frames) == NotDone(u, frames[..n]) + [] == NotDone(u, frames[..n]);
        assert Visible(u, frames) == Visible(u, frames[..n]) + [] == Visible(u, frames[..n]);
      }
    }
  }

  /** A Responses body within the reader's limits. */
  ghost predicate Readable(u: Upstream, body: Bytes) {
    u.responses && ErrorsPrintable(u) && Break(FRESH, body).None?
  }

  /** Bytes are held, and this chunk ends the line they belong to without closing a frame. */
  predicate Strands(u: Upstream, g: GateState, chunk: Bytes) {
    && g.sawFrame && !g.sawVendorError && g.held != []
    && Scan(g.reader, chunk).frames == [] && !Scan(g.reader, chunk).reader.IsOpen()
  }

  /**
   Frames of this chunk are printed again although one of them has a line that ends in a carriage return, or the open frame
   is printed to be held and has one.
   */
  predicate Mangles(u: Upstream, g: GateState, chunk: Bytes) {
    var s := Scan(g.reader, chunk);
    !g.dropRest &&
    match FirstFailure(u, s.frames)
    case Some((k, _)) => !AreClean(NotDone(u, s.frames[..k]))
    case None =>
      s.frames != [] &&
      if g.sawVendorError || AnyWrapped(u, s.frames) then !AreClean(NotDone(u, s.frames))
      else s.reader.IsOpen() && !(AreClean(NotDone(u, s.frames)) && IsCleanReader(s.reader))
  }

  /** A reader of `sent` has closed every frame and seen what `frames` show. */
  predicate Sees(u: Upstream, sent: Bytes, frames: seq<Frame>) {
    Scan(FRESH, sent).reader == FRESH && Visible(u, Scan(FRESH, sent).frames) == Visible(u, frames)
  }

  /** The held bytes take a reader that has closed every frame to where `r` stands. */
  predicate Leads(held: Bytes, r: Reader) {
    Scan(FRESH, held).frames == [] && Follows(Scan(FRESH, held).reader, r)
  }

  /** What is to be seen of a body: its frames, or those before the first failed one and its error. */
  function Expected(u: Upstream, frames: seq<Frame>): seq<Frame> {
    match FirstFailure(u, frames)
    case Some((k, message)) => frames[..k] + [u.ErrorFrame(message)]
    case None => frames
  }

  /**
   A reader of what was sent has seen exactly the frames of the body so far, or those before the
   first failed one and its error; the held bytes take it on to where the body stands.
   */
  predicate Synced(u: Upstream, run: Run, body: Scanned) {
    match FirstFailure(u, body.frames)
    case Some((k, message)) => Sees(u, run.sent, body.frames[..k] + [u.ErrorFrame(message)])
    case None => Sees(u, run.sent, body.frames) && (run.gate.sawVendorError || Leads(run.gate.held, body.reader))
  }

  predicate InSync(u: Upstream, chunks: seq<Bytes>) {
    Synced(u, After(u, chunks), Scan(FRESH, Flatten(chunks)))
  }

  /** How the flags and the reader of the gate relate to the body read so far. */
  predicate Tracks(u: Upstream, run: Run, body: Scanned) {
    && (run.gate.dropRest <==> FirstFailure(u, body.frames).Some?)
    && (!run.gate.dropRest ==> run.gate.reader == body.reader)
    && (!run.gate.sawFrame ==> run.sent == [] && body.frames == [])
  }

  lemma {:induction false} PrefixReads(chunks: seq<Bytes>)
    requires chunks != []
    ensures var n := |chunks| - 1;
            var before := Scan(FRESH, Flatten(chunks[..n]));
            var s := Scan(before.reader, chunks[n]);
            && Scan(FRESH, Flatten(chunks)) == Scanned(s.reader, before.frames + s.frames)
            && (Break(FRESH, Flatten(chunks)).None? ==>
                  Break(FRESH, Flatten(chunks[..n])).None? && Break(before.reader, chunks[n]).None?)
  {
    var n := |chunks| - 1;
    ScanConcat(FRESH, Flatten(chunks[..n]), chunks[n]);
    BreakConcat(FRESH, Flatten(chunks[..n]), chunks[n]);
  }

  lemma {:induction false} PushKeepsTrack(u: Upstream, g: GateState, c: Bytes)
    requires !g.dropRest && Break(g.reader, c).None? && !PushOf(u, g, c).1.Fail?
    ensures var s, next := Scan(g.reader, c), PushOf(u, g, c).0;
            && (next.dropRest <==> FirstFailure(u, s.frames).Some?)
            && (!next.dropRest ==> next.reader == s.reader)
            && (!next.sawFrame ==> !g.sawFrame && PushOf(u, g, c).1.Hold? && s.frames == [])
  {
  }

  lemma {:induction false} TracksStep(u: Upstream, run: Run, body: Scanned, c: Bytes)
    requires Tracks(u, run, body) && StepRun(u, run, c).failed.None? && Break(body.reader, c).None?
    ensures Tracks(u, StepRun(u, run, c), Scanned(Scan(body.reader, c).reader, body.frames + Scan(body.reader, c).frames))
  {
    FirstFailureConcat(u, body.frames, Scan(body.reader, c).frames);
    if !run.gate.dropRest {
      PushKeepsTrack(u, run.gate, c);
    }
  }

  lemma {:induction false} TracksBody(u: Upstream, chunks: seq<Bytes>)
    requires Break(FRESH, Flatten(chunks)).None? && After(u, chunks).failed.None?
    ensures Tracks(u, After(u, chunks), Scan(FRESH, Flatten(chunks)))
    decreases |chunks|
  {
    if chunks != [] {
      var n := |chunks| - 1;
      PrefixReads(chunks);
      TracksBody(u, chunks[..n]);
      TracksStep(u, After(u, chunks[..n]), Scan(FRESH, Flatten(chunks[..n])), chunks[n]);
    }
  }

  /** A frame that the gate takes for a vendor error. */
  predicate ShowsError(u: Upstream, frames: seq<Frame>) {
    FirstFailure(u, frames).Some? || AnyWrapped(u, frames)
  }

  lemma {:induction false} AnyWrappedConcat(u: Upstream, a: seq<Frame>, b: seq<Frame>)
    ensures AnyWrapped(u, a + b) == (AnyWrapped(u, a) || AnyWrapped(u, b))
    decreases |b|
  {
    if b == [] {
      assert a + b == a;
    } else {
      var n := |b| - 1;
      assert (a + b)[..|a + b| - 1] == a + b[..n];
      AnyWrappedConcat(u, a, b[..n]);
    }
  }

  lemma {:induction false} StepSeesError(u: Upstream, run: Run, c: Bytes)
    requires run.failed.None? && Break(run.gate.reader, c).None? && StepRun(u, run, c).failed.None? && !run.gate.dropRest
    ensures StepRun(u, run, c).gate.sawVendorError
       <==> run.gate.sawVendorError || ShowsError(u, Scan(run.gate.reader, c).frames)
  {
    hide Scan, Break, FormatAll, NotDone, FirstFailure, AnyEnds;
    EmptyHasNoFailure(u);
  }

  /** The flag of the gate is the presence of such a frame. */
  lemma {:induction false} VendorErrorIffShown(u: Upstream, chunks: seq<Bytes>)
    requires Break(FRESH, Flatten(chunks)).None? && OpensInTime(chunks)
    ensures After(u, chunks).gate.sawVendorError <==> ShowsError(u, Scan(FRESH, Flatten(chunks)).frames)
    decreases |chunks|
  {
    hide Scan, Break, FirstFailure, AnyWrapped, PushOf;
    if chunks == [] {
      NothingShows(u);
    } else {
      var n := |chunks| - 1;
      var init := chunks[..n];
      var before := Scan(FRESH, Flatten(init));
      PrefixReads(chunks);
      VendorErrorIffShown(u, init);
      AcceptedIffInTime(u, init);
      AcceptedIffInTime(u, chunks);
      TracksBody(u, init);
      NothingHeldAfterError(u, init);
      FirstFailureConcat(u, before.frames, Scan(before.reader, chunks[n]).frames);
      AnyWrappedConcat(u, before.frames, Scan(before.reader, chunks[n]).frames);
      if After(u, init).gate.dropRest {
        DroppedKeepsFlag(u, After(u, init), chunks[n]);
      } else {
        StepSeesError(u, After(u, init), chunks[n]);
      }
    }
  }

  lemma NothingShows(u: Upstream)
    ensures !ShowsError(u, Scan(FRESH, Flatten([])).frames)
  {
  }

  lemma {:induction false} DroppedKeepsFlag(u: Upstream, run: Run, c: Bytes)
    requires run.gate.dropRest && run.gate.sawVendorError
    ensures StepRun(u, run, c).gate.sawVendorError
  {
  }

  /** Closed outputs are seen one after the other. */
  lemma {:induction false} SeesBoth(u: Upstream, a: Bytes, b: Bytes, fa: seq<Frame>, fb: seq<Frame>)
    requires Sees(u, a, fa) && Sees(u, b, fb)
    ensures Sees(u, a + b, fa + fb)
  {
    ScanConcat(FRESH, a, b);
    VisibleConcat(u, Scan(FRESH, a).frames, Scan(FRESH, b).frames);
    VisibleConcat(u, fa, fb);
  }

  /** Behind an output that is seen, more is seen as it would be on its own. */
  lemma {:induction false} SeesMore(u: Upstream, a: Bytes, b: Bytes, fa: seq<Frame>, fb: seq<Frame>)
    requires Sees(u, a, fa)
    ensures Sees(u, a + b, fa + fb) <==> Sees(u, b, fb)
  {
    hide Scan, Visible;
    ScanConcat(FRESH, a, b);
    VisibleConcat(u, Scan(FRESH, a).frames, Scan(FRESH, b).frames);
    VisibleConcat(u, fa, fb);
    var x, y := Visible(u, Scan(FRESH, b).frames), Visible(u, fb);
    if Visible(u, fa) + x == Visible(u, fa) + y {
      SameRest(Visible(u, fa), x, y);
    }
  }

  /** And what is closed is seen ahead of what is seen as it would be on its own. */
  lemma {:induction false} SeesAhead(u: Upstream, a: Bytes, b: Bytes, fa: seq<Frame>, fb: seq<Frame>)
    requires Scan(FRESH, a).reader == FRESH && Sees(u, b, fb)
    ensures Sees(u, a + b, fa + fb) <==> Sees(u, a, fa)
  {
    hide Scan, Visible;
    ScanConcat(FRESH, a, b);
    VisibleConcat(u, Scan(FRESH, a).frames, Scan(FRESH, b).frames);
    VisibleConcat(u, fa, fb);
    var x, y := Visible(u, Scan(FRESH, a).frames), Visible(u, fa);
    if x + Visible(u, fb) == y + Visible(u, fb) {
      SameStart(x, y, Visible(u, fb));
    }
  }

  lemma SameRest(a: seq<Frame>, x: seq<Frame>, y: seq<Frame>)
    requires a + x == a + y
    ensures x == y
  {
    assert (a + x)[|a|..] == x && (a + y)[|a|..] == y;
  }

  lemma SameStart(a: seq<Frame>, b: seq<Frame>, x: seq<Frame>)
    requires a + x == b + x
    ensures a == b
  {
    assert |a + x| == |b + x|;
    assert (a + x)[..|a|] == a && (b + x)[..|b|] == b;
  }

  lemma {:induction false} NotDoneIsClean(u: Upstream, frames: seq<Frame>)
    requires AreClean(frames)
    ensures AreClean(NotDone(u, frames))
    decreases |frames|
  {
    if frames != [] {
      var rest := NotDone(u, frames[..|frames| - 1]);
      NotDoneIsClean(u, frames[..|frames| - 1]);
      CleanAppend(rest, frames[|frames| - 1]);
      assert rest + [] == rest;
    }
  }

  lemma {:induction false} NotDoneIsText(u: Upstream, frames: seq<Frame>)
    requires AreText(frames)
    ensures AreText(NotDone(u, frames))
    decreases |frames|
  {
    hide IsTextFrame;
    if frames != [] {
      var rest, last := NotDone(u, frames[..|frames| - 1]), frames[|frames| - 1];
      NotDoneIsText(u, frames[..|frames| - 1]);
      assert (rest + [last])[..|rest|] == rest;
      assert rest + [] == rest;
    }
  }

  lemma NoneDoneParts(u: Upstream, frames: seq<Frame>)
    requires NoneDone(u, frames) && frames != []
    ensures NoneDone(u, frames[..|frames| - 1]) && !u.IsDone(frames[|frames| - 1])
  {
    assert frames[|frames| - 1] in frames;
  }

  lemma NotDoneLast(u: Upstream, frames: seq<Frame>)
    requires frames != [] && !u.IsDone(frames[|frames| - 1])
    ensures NotDone(u, frames) == NotDone(u, frames[..|frames| - 1]) + [frames[|frames| - 1]]
  {
  }

  lemma {:induction false} NotDoneKeeps(u: Upstream, frames: seq<Frame>)
    requires NoneDone(u, frames)
    ensures NotDone(u, frames) == frames
    decreases |frames|
  {
    hide NoneDone, NotDone;
    if frames == [] {
      NothingPrinted(u);
    } else {
      var n := |frames| - 1;
      NoneDoneParts(u, frames);
      NotDoneKeeps(u, frames[..n]);
      NotDoneLast(u, frames);
      assert frames[..n] + [frames[n]] == frames;
    }
  }

  /** What carries nothing has no size. */
  lemma {:induction false} DropBlankSize(frames: seq<Frame>)
    ensures TotalSize(DropBlank(frames)) == TotalSize(frames)
    decreases |frames|
  {
    if frames != [] {
      var rest, last := DropBlank(frames[..|frames| - 1]), frames[|frames| - 1];
      DropBlankSize(frames[..|frames| - 1]);
      assert (rest + [last])[..|rest|] == rest;
      assert rest + [] == rest;
    }
  }

  lemma {:induction false} NotDoneSize(u: Upstream, frames: seq<Frame>)
    ensures TotalSize(NotDone(u, frames)) <= TotalSize(frames)
    decreases |frames|
  {
    if frames != [] {
      var rest, last := NotDone(u, frames[..|frames| - 1]), frames[|frames| - 1];
      NotDoneSize(u, frames[..|frames| - 1]);
      assert (rest + [last])[..|rest|] == rest;
      assert rest + [] == rest;
    }
  }

  lemma {:induction false} DropBlankMembers(frames: seq<Frame>)
    ensures forall f | f in DropBlank(frames) :: f in frames
    decreases |frames|
  {
    if frames != [] {
      DropBlankMembers(frames[..|frames| - 1]);
    }
  }

  lemma {:induction false} VisibleSize(u: Upstream, frames: seq<Frame>)
    ensures TotalSize(Visible(u, frames)) <= TotalSize(frames)
    ensures NoneDone(u, frames) ==> TotalSize(Visible(u, frames)) == TotalSize(frames)
  {
    DropBlankSize(frames);
    NotDoneSize(u, DropBlank(frames));
    if NoneDone(u, frames) {
      DropBlankMembers(frames);
      NotDoneKeeps(u, DropBlank(frames));
    }
  }

  /** Frames printed again show what they did exactly when they are clean. */
  lemma {:induction false} ChompedShow(u: Upstream, frames: seq<Frame>)
    requires AreText(frames) && NoneDone(u, frames)
    ensures Visible(u, ChompFrames(frames)) == Visible(u, frames) <==> AreClean(frames)
  {
    hide Visible, AreClean, AreText, NoneDone, ChompFrames, TotalSize;
    if AreClean(frames) {
      CleanIsText(frames);
    } else if Visible(u, ChompFrames(frames)) == Visible(u, frames) {
      VisibleSize(u, frames);
      VisibleSize(u, ChompFrames(frames));
      ChompFramesCount(frames);
    }
  }

  /** Frames printed again, less the terminator, are closed, and seen as they were exactly when they are clean. */
  lemma {:induction false} SeesPrinted(u: Upstream, frames: seq<Frame>)
    requires AreText(frames)
    ensures Scan(FRESH, FormatAll(NotDone(u, frames))).reader == FRESH
    ensures Sees(u, FormatAll(NotDone(u, frames)), frames) <==> AreClean(NotDone(u, frames))
  {
    hide Scan, FormatAll, AreText, AreClean, NotDone, Visible, ChompFrames;
    NotDoneIsText(u, frames);
    NotDoneMeaning(u, frames);
    ScanFormattedAll(NotDone(u, frames));
    VisibleNotDone(u, frames);
    ChompedShow(u, NotDone(u, frames));
  }

  lemma {:induction false} LineIsClean(event: Bytes, line: Bytes)
    requires IsLine(event) && !EndsInCr(event) && IsLine(line) && !EndsInCr(line)
    ensures IsTextFrame(Frame(Some(event), line)) && IsClean(Frame(Some(event), line))
  {
    hide IsText;
    SplitJoin([line]);
    assert Join([line]) == line;
  }

  lemma {:induction false} ErrorIsClean(u: Upstream, message: string)
    requires ErrorsPrintable(u)
    ensures IsTextFrame(u.ErrorFrame(message)) && IsClean(u.ErrorFrame(message))
  {
    hide IsText, IsTextFrame, IsClean;
    var f := u.ErrorFrame(message);
    AsciiIsText(f.event.value);
    LineIsClean(f.event.value, f.data);
  }

  lemma {:induction false} ScanError(u: Upstream, message: string)
    requires ErrorsPrintable(u)
    ensures Scan(FRESH, u.ErrorBytes(message)) == Scanned(FRESH, [u.ErrorFrame(message)])
  {
    hide ErrorsPrintable, IsTextFrame, IsClean, Scan;
    ErrorIsClean(u, message);
    ReadsCleanFrame(u.ErrorFrame(message));
  }

  /** A reader that follows a closed one is fresh. */
  lemma {:induction false} FollowsClosed(d: Reader, r: Reader)
    requires Follows(d, r) && !r.IsOpen()
    ensures d == FRESH && Follows(FRESH, r)
  {
  }

  /** Held bytes joined to a chunk that closes its frames are seen as the chunk is by the gate. */
  lemma {:induction false} SeesHeld(u: Upstream, held: Bytes, r: Reader, chunk: Bytes)
    requires Leads(held, r) && !Scan(r, chunk).reader.IsOpen()
    ensures Sees(u, held + chunk, Scan(r, chunk).frames)
    ensures Leads([], Scan(r, chunk).reader)
  {
    var d := Scan(FRESH, held).reader;
    FollowsScan(d, r, chunk);
    FollowsClosed(Scan(d, chunk).reader, Scan(r, chunk).reader);
    ScanConcat(FRESH, held, chunk);
    assert [] + Scan(d, chunk).frames == Scan(d, chunk).frames;
  }

  lemma {:induction false} LeadsGrows(held: Bytes, r: Reader, chunk: Bytes)
    requires Leads(held, r) && Scan(r, chunk).frames == []
    ensures Leads(held + chunk, Scan(r, chunk).reader)
  {
    ScanConcat(FRESH, held, chunk);
    FollowsScan(Scan(FRESH, held).reader, r, chunk);
  }

  lemma {:induction false} FieldsStayOpen(r: Reader, bytes: Bytes)
    requires r.hasFields && Scan(r, bytes).frames == []
    ensures Scan(r, bytes).reader.hasFields
    decreases |bytes|
  {
    if bytes != [] {
      FieldsStayOpen(ScanByte(r, bytes[0]).reader, bytes[1..]);
    }
  }

  /** Held bytes of an open line do not lead to a closed reader. */
  lemma {:induction false} StrandedDoNotLead(held: Bytes, r: Reader, chunk: Bytes)
    requires Leads(held, r) && r.IsOpen()
    requires Scan(r, chunk).frames == [] && !Scan(r, chunk).reader.IsOpen()
    ensures !Leads(held, Scan(r, chunk).reader)
  {
    if r.hasFields {
      FieldsStayOpen(r, chunk);
    }
    assert Scan(FRESH, held).reader.buffer == r.buffer != [];
  }

  predicate HeldIsOpen(g: GateState) {
    g.sawFrame && g.held != [] && !g.sawVendorError ==> g.reader.IsOpen()
  }

  /** What a chunk closes is text. */
  lemma {:induction false} EmitsText(body: Bytes, before: Scanned, s: Scanned)
    requires Scan(FRESH, body) == Scanned(s.reader, before.frames + s.frames)
    ensures AreText(s.frames) && IsTextReader(s.reader)
  {
    hide IsTextFrame;
    ScanEmitsText(FRESH, body);
    assert forall f | f in s.frames :: f in before.frames + s.frames;
    TextByMembers(s.frames);
  }

  // The cases of one chunk, on a gate that is not dropping the rest.

  lemma ErrorIsSeen(u: Upstream, message: string)
    requires ErrorsPrintable(u)
    ensures Sees(u, u.ErrorBytes(message), [u.ErrorFrame(message)])
  {
    hide Scan, ErrorsPrintable, Visible;
    ScanError(u, message);
  }

  lemma {:induction false} SeesFailure(u: Upstream, sent: Bytes, earlier: seq<Frame>, frames: seq<Frame>,
                                       shown: seq<Frame>, message: string)
    requires ErrorsPrintable(u) && Sees(u, sent, earlier) && shown == earlier + frames && AreText(frames)
    ensures Sees(u, sent + (FormatAll(NotDone(u, frames)) + u.ErrorBytes(message)), shown + [u.ErrorFrame(message)])
       <==> AreClean(NotDone(u, frames))
  {
    hide Scan, Sees, ErrorsPrintable, FormatAll, NotDone, AreClean, AreText, Format;
    var error, printed := u.ErrorFrame(message), FormatAll(NotDone(u, frames));
    SeesPrinted(u, frames);
    ErrorIsSeen(u, message);
    SeesAhead(u, printed, u.ErrorBytes(message), frames, [error]);
    SeesMore(u, sent, printed + u.ErrorBytes(message), earlier, frames + [error]);
    ConcatAssoc(earlier, frames, [error]);
  }

  lemma {:induction false} SyncFailure(u: Upstream, sent: Bytes, earlier: seq<Frame>, frames: seq<Frame>, k: nat, message: string)
    requires ErrorsPrintable(u) && Sees(u, sent, earlier)
    requires FirstFailure(u, earlier).None? && FirstFailure(u, frames) == Some((k, message))
    requires AreText(frames)
    ensures FirstFailure(u, earlier + frames) == Some((|earlier| + k, message))
    ensures Sees(u, sent + (FormatAll(NotDone(u, frames[..k])) + u.ErrorBytes(message)),
                 (earlier + frames)[..|earlier| + k] + [u.ErrorFrame(message)])
       <==> AreClean(NotDone(u, frames[..k]))
  {
    hide *;
    FirstFailureConcat(u, earlier, frames);
    TextPrefix(frames, k);
    SeesFailure(u, sent, earlier, frames[..k], (earlier + frames)[..|earlier| + k], message);
  }

  lemma {:induction false} StepFailure(u: Upstream, run: Run, c: Bytes)
    requires run.failed.None? && !run.gate.dropRest && Break(run.gate.reader, c).None?
    requires StepRun(u, run, c).failed.None? && FirstFailure(u, Scan(run.gate.reader, c).frames).Some?
    ensures var frames := Scan(run.gate.reader, c).frames;
            var (k, message) := FirstFailure(u, frames).value;
            StepRun(u, run, c) == Run(GateState(FRESH, true, true, true, true, []),
                                      run.sent + (FormatAll(NotDone(u, frames[..k])) + u.ErrorBytes(message)), None)
  {
  }

  /** What a chunk does that closes frames, none of them failed. */
  predicate FramesStep(u: Upstream, g: GateState, c: Bytes, s: Scanned, next: GateState, out: Bytes) {
    if g.sawVendorError || AnyWrapped(u, s.frames) then
      next.sawVendorError && next.held == [] && out == FormatAll(NotDone(u, s.frames))
    else
      && next.reader == s.reader && !next.sawVendorError
      && if s.reader.IsOpen() then next.held == Pending(s.reader) && out == FormatAll(NotDone(u, s.frames))
         else next.held == [] && out == g.held + c
  }

  lemma {:induction false} StepFrames(u: Upstream, run: Run, c: Bytes) returns (out: Bytes)
    requires u.responses && run.failed.None? && !run.gate.dropRest && Break(run.gate.reader, c).None?
    requires StepRun(u, run, c).failed.None?
    requires Scan(run.gate.reader, c).frames != [] && FirstFailure(u, Scan(run.gate.reader, c).frames).None?
    ensures StepRun(u, run, c).sent == run.sent + out
    ensures FramesStep(u, run.gate, c, Scan(run.gate.reader, c), StepRun(u, run, c).gate, out)
  {
    out := PushOf(u, run.gate, c).1.bytes;
  }

  /** What a chunk does that closes no frame. */
  lemma {:induction false} StepNoFrame(u: Upstream, run: Run, c: Bytes)
    requires u.responses && run.failed.None? && !run.gate.dropRest && Break(run.gate.reader, c).None?
    requires StepRun(u, run, c).failed.None? && Scan(run.gate.reader, c).frames == []
    requires run.gate.sawVendorError ==> run.gate.sawFrame
    ensures var g := run.gate.(reader := Scan(run.gate.reader, c).reader);
            StepRun(u, run, c) == if run.gate.sawVendorError then Run(g, run.sent, None)
                                  else if !run.gate.sawFrame || g.reader.IsOpen() then Run(g.(held := g.held + c), run.sent, None)
                                  else Run(g, run.sent + c, None)
  {
  }

  lemma {:induction false} SyncNoFrame(u: Upstream, run: Run, c: Bytes, earlier: seq<Frame>)
    requires u.responses && run.failed.None? && !run.gate.dropRest && Break(run.gate.reader, c).None?
    requires StepRun(u, run, c).failed.None? && Sees(u, run.sent, earlier) && HeldIsOpen(run.gate)
    requires Scan(run.gate.reader, c).frames == []
    requires run.gate.sawVendorError || Leads(run.gate.held, run.gate.reader)
    requires run.gate.sawVendorError ==> run.gate.sawFrame
    ensures var next, r := StepRun(u, run, c), Scan(run.gate.reader, c).reader;
            && (!Strands(u, run.gate, c) ==> Sees(u, next.sent, earlier))
            && (Strands(u, run.gate, c) <==> !(next.gate.sawVendorError || Leads(next.gate.held, r)))
            && (!Strands(u, run.gate, c) ==> HeldIsOpen(next.gate))
  {
    StepNoFrame(u, run, c);
    SyncHeld(u, run.gate, run.sent, c, earlier);
  }

  /** The held bytes, when a chunk closes no frame. */
  lemma {:induction false} SyncHeld(u: Upstream, g: GateState, sent: Bytes, c: Bytes, earlier: seq<Frame>)
    requires Sees(u, sent, earlier) && HeldIsOpen(g) && Scan(g.reader, c).frames == []
    requires g.sawVendorError || Leads(g.held, g.reader)
    ensures var r := Scan(g.reader, c).reader;
            var holds := !g.sawFrame || r.IsOpen();
            !g.sawVendorError ==>
              && (Strands(u, g, c) <==> !Leads(if holds then g.held + c else g.held, r))
              && (!holds && g.held == [] ==> Sees(u, sent + c, earlier))
              && (Strands(u, g, c) <==> !holds && g.held != [])
  {
    var r := Scan(g.reader, c).reader;
    if !g.sawVendorError {
      if !g.sawFrame || r.IsOpen() {
        LeadsGrows(g.held, g.reader, c);
      } else if g.held == [] {
        SeesHeld(u, [], g.reader, c);
        assert [] + c == c && earlier + [] == earlier;
        SeesBoth(u, sent, c, earlier, []);
      } else {
        StrandedDoNotLead(g.held, g.reader, c);
      }
    }
  }

  lemma {:induction false} SyncFrames(u: Upstream, g: GateState, sent: Bytes, c: Bytes, earlier: seq<Frame>,
                                      s: Scanned, next: GateState, out: Bytes)
    requires FramesStep(u, g, c, s, next, out) && Sees(u, sent, earlier) && s == Scan(g.reader, c)
    requires s.frames != [] && FirstFailure(u, s.frames).None? && !g.dropRest
    requires g.sawVendorError || Leads(g.held, g.reader)
    requires AreText(s.frames) && IsTextReader(s.reader)
    ensures Sees(u, sent + out, earlier + s.frames) && (next.sawVendorError || Leads(next.held, s.reader)) <==> !Mangles(u, g, c)
    ensures HeldIsOpen(next)
  {
    hide Scan, Sees, Leads, AreText, AreClean, IsTextReader, IsCleanReader, NotDone, FormatAll, FirstFailure, AnyWrapped;
    if g.sawVendorError || AnyWrapped(u, s.frames) || s.reader.IsOpen() {
      SeesPrintedNext(u, sent, earlier, s);
    } else {
      SeesHeld(u, g.held, g.reader, c);
      SeesBoth(u, sent, g.held + c, earlier, s.frames);
    }
  }

  lemma {:induction false} SeesPrintedNext(u: Upstream, sent: Bytes, earlier: seq<Frame>, s: Scanned)
    requires Sees(u, sent, earlier) && AreText(s.frames) && IsTextReader(s.reader)
    ensures Sees(u, sent + FormatAll(NotDone(u, s.frames)), earlier + s.frames) <==> AreClean(NotDone(u, s.frames))
    ensures Leads(Pending(s.reader), s.reader) <==> IsCleanReader(s.reader)
  {
    hide Scan, Sees, AreText, AreClean, IsTextReader, IsCleanReader, NotDone, FormatAll;
    SeesPrinted(u, s.frames);
    SeesMore(u, sent, FormatAll(NotDone(u, s.frames)), earlier, s.frames);
    ScanPendingBytes(s.reader);
  }

  /** The output is in step with `body` and the next chunk is within the limits. */
  ghost predicate Ready(u: Upstream, run: Run, c: Bytes, body: Scanned) {
    var s := Scan(body.reader, c);
    && u.responses && ErrorsPrintable(u)
    && Tracks(u, run, body) && Synced(u, run, body) && HeldIsOpen(run.gate)
    && (run.gate.sawVendorError ==> run.gate.sawFrame)
    && (run.gate.dropRest ==> run.gate.sawVendorError)
    && Break(body.reader, c).None? && StepRun(u, run, c).failed.None?
    && AreText(s.frames) && IsTextReader(s.reader)
  }

  lemma {:induction false} SyncDropping(u: Upstream, run: Run, c: Bytes, body: Scanned, frames: seq<Frame>, reader: Reader)
    requires Tracks(u, run, body) && Synced(u, run, body) && run.gate.dropRest
    ensures Synced(u, run, Scanned(reader, body.frames + frames))
  {
    FirstFailureConcat(u, body.frames, frames);
    var k := FirstFailure(u, body.frames).value.0;
    assert (body.frames + frames)[..k] == body.frames[..k];
  }

  lemma {:induction false} SyncFirstFailure(u: Upstream, run: Run, c: Bytes, earlier: seq<Frame>)
    requires ErrorsPrintable(u) && run.failed.None? && !run.gate.dropRest && Break(run.gate.reader, c).None?
    requires StepRun(u, run, c).failed.None? && Sees(u, run.sent, earlier) && FirstFailure(u, earlier).None?
    requires FirstFailure(u, Scan(run.gate.reader, c).frames).Some?
    requires AreText(Scan(run.gate.reader, c).frames)
    ensures var s := Scan(run.gate.reader, c);
            Synced(u, StepRun(u, run, c), Scanned(s.reader, earlier + s.frames)) <==> !Mangles(u, run.gate, c)
    ensures StepRun(u, run, c).gate.sawVendorError && !Strands(u, run.gate, c)
  {
    hide Scan, Break, StepRun, Visible, NotDone, FormatAll, Sees, AreText, AreClean, ErrorsPrintable;
    var (k, message) := FirstFailure(u, Scan(run.gate.reader, c).frames).value;
    SyncFailure(u, run.sent, earlier, Scan(run.gate.reader, c).frames, k, message);
    StepFailure(u, run, c);
  }

  lemma {:induction false} SyncStepFailure(u: Upstream, run: Run, c: Bytes, body: Scanned)
    requires Ready(u, run, c, body) && FirstFailure(u, body.frames + Scan(body.reader, c).frames).Some?
    ensures Synced(u, StepRun(u, run, c), Scanned(Scan(body.reader, c).reader, body.frames + Scan(body.reader, c).frames))
       <==> !Mangles(u, run.gate, c)
    ensures HeldIsOpen(StepRun(u, run, c).gate) && !Strands(u, run.gate, c)
  {
    hide Scan, Break, Sees, Leads, AreText, ErrorsPrintable, IsTextReader, FirstFailure;
    var s := Scan(body.reader, c);
    FirstFailureConcat(u, body.frames, s.frames);
    if run.gate.dropRest {
      SyncDropping(u, run, c, body, s.frames, s.reader);
    } else {
      SyncFirstFailure(u, run, c, body.frames);
    }
  }

  lemma {:induction false} SyncStepFrames(u: Upstream, run: Run, c: Bytes, body: Scanned)
    requires Ready(u, run, c, body) && FirstFailure(u, body.frames + Scan(body.reader, c).frames).None?
    requires Scan(body.reader, c).frames != []
    ensures Synced(u, StepRun(u, run, c), Scanned(Scan(body.reader, c).reader, body.frames + Scan(body.reader, c).frames))
       <==> !Mangles(u, run.gate, c)
    ensures HeldIsOpen(StepRun(u, run, c).gate) && !Strands(u, run.gate, c)
  {
    hide Scan, Break, Sees, Leads, AreText, ErrorsPrintable, IsTextReader, FirstFailure, Mangles, PushOf, FramesStep;
    var s := Scan(body.reader, c);
    FirstFailureConcat(u, body.frames, s.frames);
    var out := StepFrames(u, run, c);
    SyncFrames(u, run.gate, run.sent, c, body.frames, s, StepRun(u, run, c).gate, out);
  }

  lemma {:induction false} SyncStepNoFrame(u: Upstream, run: Run, c: Bytes, body: Scanned)
    requires Ready(u, run, c, body) && FirstFailure(u, body.frames).None? && Scan(body.reader, c).frames == []
    ensures Synced(u, StepRun(u, run, c), Scanned(Scan(body.reader, c).reader, body.frames)) <==> !Strands(u, run.gate, c)
    ensures !Strands(u, run.gate, c) ==> HeldIsOpen(StepRun(u, run, c).gate)
    ensures !Mangles(u, run.gate, c)
  {
    hide Scan, Break, Sees, Leads, AreText, ErrorsPrintable, IsTextReader, PushOf, HeldIsOpen;
    SyncNoFrame(u, run, c, body.frames);
  }

  /** One chunk keeps the output in step exactly when it strands nothing and mangles nothing. */
  lemma {:induction false} SyncStep(u: Upstream, run: Run, c: Bytes, body: Scanned)
    requires Ready(u, run, c, body)
    ensures var s := Scan(body.reader, c);
            Synced(u, StepRun(u, run, c), Scanned(s.reader, body.frames + s.frames))
            <==> !Strands(u, run.gate, c) && !Mangles(u, run.gate, c)
    ensures !Strands(u, run.gate, c) ==> HeldIsOpen(StepRun(u, run, c).gate)
  {
    hide Ready, Synced, Strands, Mangles, HeldIsOpen, StepRun, Scan, FirstFailure;
    var s := Scan(body.reader, c);
    if FirstFailure(u, body.frames + s.frames).Some? {
      SyncStepFailure(u, run, c, body);
    } else if s.frames != [] {
      SyncStepFrames(u, run, c, body);
    } else {
      assert body.frames + [] == body.frames;
      SyncStepNoFrame(u, run, c, body);
    }
  }

  /** `SyncStep` for the last chunk of a body. */
  lemma {:induction false} SyncLast(u: Upstream, chunks: seq<Bytes>)
    requires chunks != [] && Readable(u, Flatten(chunks)) && After(u, chunks).failed.None?
    requires InSync(u, chunks[..|chunks| - 1]) && HeldIsOpen(After(u, chunks[..|chunks| - 1]).gate)
    ensures var g, c := After(u, chunks[..|chunks| - 1]).gate, chunks[|chunks| - 1];
            InSync(u, chunks) <==> !Strands(u, g, c) && !Mangles(u, g, c)
    ensures InSync(u, chunks) ==> HeldIsOpen(After(u, chunks).gate)
  {
    hide Scan, Break, Synced, Strands, Mangles, HeldIsOpen, FirstFailure, ErrorsPrintable;
    var n := |chunks| - 1;
    var before := Scan(FRESH, Flatten(chunks[..n]));
    PrefixReads(chunks);
    TracksBody(u, chunks[..n]);
    NothingHeldAfterError(u, chunks[..n]);
    EmitsText(Flatten(chunks), before, Scan(before.reader, chunks[n]));
    SyncStep(u, After(u, chunks[..n]), chunks[n], before);
  }

  predicate AlwaysInSync(u: Upstream, chunks: seq<Bytes>) {
    InSync(u, chunks) && (chunks == [] || AlwaysInSync(u, chunks[..|chunks| - 1]))
  }

  predicate NeverStrands(u: Upstream, chunks: seq<Bytes>) {
    chunks == []
    || var n := |chunks| - 1;
       NeverStrands(u, chunks[..n]) && !Strands(u, After(u, chunks[..n]).gate, chunks[n])
  }

  predicate NeverMangles(u: Upstream, chunks: seq<Bytes>) {
    chunks == []
    || var n := |chunks| - 1;
       NeverMangles(u, chunks[..n]) && !Mangles(u, After(u, chunks[..n]).gate, chunks[n])
  }

  lemma {:induction false} StrandsAt(u: Upstream, chunks: seq<Bytes>, i: nat)
    requires i < |chunks| && Strands(u, After(u, chunks[..i]).gate, chunks[i])
    ensures !NeverStrands(u, chunks)
    decreases |chunks|
  {
    var n := |chunks| - 1;
    if i < n {
      assert chunks[..n][..i] == chunks[..i];
      StrandsAt(u, chunks[..n], i);
    }
  }

  lemma EmptyInSync(u: Upstream)
    ensures InSync(u, []) && HeldIsOpen(After(u, []).gate)
  {
  }

  // ---- which runs are accepted ----

  /** Until a frame has closed, the reads stay within the limit together. */
  predicate OpensInTime(chunks: seq<Bytes>) {
    chunks == []
    || var n := |chunks| - 1;
       && OpensInTime(chunks[..n])
       && (Scan(FRESH, Flatten(chunks[..n])).frames == [] ==> |Flatten(chunks)| <= MAX_UPSTREAM_BODY)
  }

  /** Has a run seen the frames of its body, and kept everything until the first? */
  predicate Counts(run: Run, body: Bytes) {
    && (run.gate.sawFrame <==> Scan(FRESH, body).frames != [])
    && (!run.gate.sawFrame ==> run.gate.held == body && !run.gate.dropRest)
    && (!run.gate.dropRest ==> run.gate.reader == Scan(FRESH, body).reader)
  }

  lemma {:induction false} StepCounts(u: Upstream, run: Run, before: Bytes, c: Bytes)
    requires run.failed.None? && Counts(run, before) && Break(FRESH, before + c).None?
    ensures StepRun(u, run, c).failed.None? <==> (Scan(FRESH, before).frames == [] ==> |before + c| <= MAX_UPSTREAM_BODY)
    ensures StepRun(u, run, c).failed.None? ==> Counts(StepRun(u, run, c), before + c)
  {
    hide Scan, Break, FormatAll, NotDone, FirstFailure, AnyWrapped, AnyEnds;
    ScanConcat(FRESH, before, c);
    BreakConcat(FRESH, before, c);
    EmptyHasNoFailure(u);
  }

  lemma EmptyHasNoFailure(u: Upstream)
    ensures FirstFailure(u, []) == None
  {
  }

  lemma {:induction false} AcceptedCounts(u: Upstream, chunks: seq<Bytes>)
    requires Break(FRESH, Flatten(chunks)).None?
    ensures After(u, chunks).failed.None? <==> OpensInTime(chunks)
    ensures OpensInTime(chunks) ==> Counts(After(u, chunks), Flatten(chunks))
    decreases |chunks|
  {
    if chunks != [] {
      var n := |chunks| - 1;
      PrefixReads(chunks);
      AcceptedCounts(u, chunks[..n]);
      if OpensInTime(chunks[..n]) {
        StepCounts(u, After(u, chunks[..n]), Flatten(chunks[..n]), chunks[n]);
      }
    }
  }

  /** Within the reader's limits a run is accepted exactly when its reads stay within the gate's limit until a frame closes. */
  lemma {:induction false} AcceptedIffInTime(u: Upstream, chunks: seq<Bytes>)
    requires Break(FRESH, Flatten(chunks)).None?
    ensures After(u, chunks).failed.None? <==> OpensInTime(chunks)
  {
    AcceptedCounts(u, chunks);
  }

  lemma {:induction false} AcceptedInStep(u: Upstream, chunks: seq<Bytes>)
    requires Readable(u, Flatten(chunks)) && After(u, chunks).failed.None?
    ensures AlwaysInSync(u, chunks) <==> NeverStrands(u, chunks) && NeverMangles(u, chunks)
    ensures AlwaysInSync(u, chunks) ==> HeldIsOpen(After(u, chunks).gate)
    decreases |chunks|
  {
    hide InSync, HeldIsOpen, Strands, Mangles, Scan, Break, ErrorsPrintable, Flatten;
    if chunks == [] {
      EmptyInSync(u);
    } else {
      var init := chunks[..|chunks| - 1];
      PrefixReads(chunks);
      AcceptedInStep(u, init);
      if AlwaysInSync(u, init) {
        SyncLast(u, chunks);
      }
    }
  }

  /**
   Responses wire: after every chunk a reader of the output has seen what the body shows so far and the held bytes lead it
   on to where the body stands, exactly when no chunk strands held bytes and none mangles what it prints again.
   */
  lemma {:induction false} InStepIffKept(u: Upstream, chunks: seq<Bytes>)
    requires Readable(u, Flatten(chunks)) && OpensInTime(chunks)
    ensures AlwaysInSync(u, chunks) <==> NeverStrands(u, chunks) && NeverMangles(u, chunks)
    ensures AlwaysInSync(u, chunks) ==> HeldIsOpen(After(u, chunks).gate)
  {
    AcceptedIffInTime(u, chunks);
    AcceptedInStep(u, chunks);
  }

  // ---- what mangles nothing ----

  lemma {:induction false} CleanStepMangles(u: Upstream, g: GateState, c: Bytes)
    requires !g.dropRest ==> AreClean(Scan(g.reader, c).frames) && IsCleanReader(Scan(g.reader, c).reader)
    ensures !Mangles(u, g, c)
  {
    hide Scan, AreClean, IsCleanReader, NotDone, AnyWrapped;
    var frames := Scan(g.reader, c).frames;
    if !g.dropRest {
      NotDoneIsClean(u, frames);
      if FirstFailure(u, frames).Some? {
        CleanPrefix(frames, FirstFailure(u, frames).value.0);
        NotDoneIsClean(u, frames[..FirstFailure(u, frames).value.0]);
      }
    }
  }

  lemma {:induction false} EmitsClean(body: Bytes, before: Scanned, s: Scanned)
    requires NoDoubledCr(body) && Scan(FRESH, body) == Scanned(s.reader, before.frames + s.frames)
    ensures AreClean(s.frames) && IsCleanReader(s.reader)
  {
    assert [] + body == body;
    ScanEmitsText(FRESH, body);
    assert forall f | f in s.frames :: f in before.frames + s.frames;
    CleanByMembers(s.frames);
  }

  /** A body in which no line ends in two carriage returns is never mangled, however it is cut. */
  lemma {:induction false} NoDoubledCrNoMangling(u: Upstream, chunks: seq<Bytes>)
    requires Break(FRESH, Flatten(chunks)).None? && OpensInTime(chunks) && NoDoubledCr(Flatten(chunks))
    ensures NeverMangles(u, chunks)
    decreases |chunks|
  {
    hide Scan, Break, Mangles, AreClean, IsCleanReader;
    if chunks != [] {
      var n := |chunks| - 1;
      var init, before := chunks[..n], Scan(FRESH, Flatten(chunks[..n]));
      PrefixReads(chunks);
      assert Flatten(chunks)[..|Flatten(init)|] == Flatten(init);
      NoDoubledCrNoMangling(u, init);
      AcceptedCounts(u, init);
      EmitsClean(Flatten(chunks), before, Scan(before.reader, chunks[n]));
      CleanStepMangles(u, After(u, init).gate, chunks[n]);
    }
  }
}
