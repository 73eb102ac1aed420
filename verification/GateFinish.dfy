/**
 What ends a same-wire stream, told from the body alone: which of its frames count as an end, what the finish answers,
 and which chunks are refused with which message.
 */
module GateFinish {
  import opened Utf8
  import opened Sse
  import opened SseFormat
  import opened Gate
  import opened GateRuns
  import opened GateVendor
  import opened GateEnd

  // ---- frames, one by one ----

  /** `[DONE]`, white space around it aside. */
  predicate Terminator(u: Upstream, f: Frame) {
    u.trim(f.data) == DONE
  }

  predicate Ends(u: Upstream, f: Frame) {
    u.terminal(f) || u.wrapped(f.data)
  }

  /** A `response.failed` on the Responses wire. */
  predicate Fails(u: Upstream, f: Frame) {
    u.responses && u.decodeFailure(f).Some?
  }

  predicate SomeEnds(u: Upstream, frames: seq<Frame>) {
    exists f | f in frames :: Ends(u, f)
  }

  predicate SomeEndsPrinted(u: Upstream, frames: seq<Frame>) {
    exists f | f in frames :: Ends(u, f) && !Terminator(u, f)
  }

  predicate SomeWrapped(u: Upstream, frames: seq<Frame>) {
    exists f | f in frames :: u.wrapped(f.data)
  }

  predicate SomeFails(u: Upstream, frames: seq<Frame>) {
    exists f | f in frames :: Fails(u, f)
  }

  lemma {:induction false} OneMore(u: Upstream, frames: seq<Frame>)
    requires frames != []
    ensures var front, f := frames[..|frames| - 1], frames[|frames| - 1];
            && SomeEnds(u, frames) == (SomeEnds(u, front) || Ends(u, f))
            && SomeEndsPrinted(u, frames) == (SomeEndsPrinted(u, front) || (Ends(u, f) && !Terminator(u, f)))
            && SomeFails(u, frames) == (SomeFails(u, front) || Fails(u, f))
  {
    var front, f := frames[..|frames| - 1], frames[|frames| - 1];
    assert frames == front + [f];
    assert forall g :: g in frames <==> g in front || g == f;
  }

  lemma {:induction false} EndsMeaning(u: Upstream, frames: seq<Frame>)
    ensures AnyEnds(u, frames) <==> SomeEnds(u, frames)
    decreases |frames|
  {
    if frames != [] {
      var n := |frames| - 1;
      EndsMeaning(u, frames[..n]);
      OneMore(u, frames);
      assert AnyEnds(u, frames) == (AnyEnds(u, frames[..n]) || u.EndsStream(frames[n]));
    }
  }

  lemma {:induction false} WrappedMeaning(u: Upstream, frames: seq<Frame>)
    ensures AnyWrapped(u, frames) <==> SomeWrapped(u, frames)
    decreases |frames|
  {
    if frames != [] {
      WrappedMeaning(u, frames[..|frames| - 1]);
      assert forall f | f in frames :: f in frames[..|frames| - 1] || f == frames[|frames| - 1];
    }
  }

  /** The first failed frame is the first whose failure the decoder names, on the Responses wire only. */
  lemma {:induction false} FailureMeaning(u: Upstream, frames: seq<Frame>)
    ensures FirstFailure(u, frames).Some? <==> SomeFails(u, frames)
    ensures match FirstFailure(u, frames)
            case None => true
            case Some((k, message)) =>
              && k < |frames| && Fails(u, frames[k]) && u.decodeFailure(frames[k]) == Some(message)
              && !SomeFails(u, frames[..k])
    decreases |frames|
  {
    if frames != [] {
      var n := |frames| - 1;
      FailureMeaning(u, frames[..n]);
      OneMore(u, frames);
      if FirstFailure(u, frames[..n]).Some? {
        var k := FirstFailure(u, frames[..n]).value.0;
        assert frames[..n][..k] == frames[..k] && frames[..n][k] == frames[k];
      }
    }
  }

  lemma NoneEnds(u: Upstream)
    ensures !AnyEnds(u, NotDone(u, [])) && !SomeEndsPrinted(u, [])
  {
  }

  lemma {:induction false} PrintedMeaning(u: Upstream, frames: seq<Frame>)
    ensures AnyEnds(u, NotDone(u, frames)) <==> SomeEndsPrinted(u, frames)
    decreases |frames|
  {
    hide SomeEnds, SomeEndsPrinted, AnyEnds;
    if frames == [] {
      NoneEnds(u);
    } else {
      var n := |frames| - 1;
      PrintedMeaning(u, frames[..n]);
      OneMore(u, frames);
      AnyEndsSnoc(u, NotDone(u, frames[..n]), frames[n]);
      assert NotDone(u, frames[..n]) + [] == NotDone(u, frames[..n]);
    }
  }

  /** What is printed again is every frame but the terminators, in order. */
  lemma {:induction false} PrintsAllButDone(u: Upstream, a: seq<Frame>, f: Frame, b: seq<Frame>)
    ensures NotDone(u, a + [f] + b) == NotDone(u, a) + (if Terminator(u, f) then [] else [f]) + NotDone(u, b)
    ensures NotDone(u, []) == []
  {
    NotDoneConcat(u, a + [f], b);
    NotDoneConcat(u, a, [f]);
    assert [f][..0] == [];
  }

  /** What a client sees of frames is every one that has an event or data, but the terminators, in order. */
  lemma {:induction false} SeesAllButDone(u: Upstream, a: seq<Frame>, f: Frame, b: seq<Frame>)
    ensures Visible(u, a + [f] + b)
         == Visible(u, a) + (if (f.event.None? && f.data == []) || Terminator(u, f) then [] else [f]) + Visible(u, b)
    ensures Visible(u, []) == []
  {
    VisibleConcat(u, a + [f], b);
    VisibleConcat(u, a, [f]);
    VisibleOne(u, f);
  }

  // ---- what a run takes note of ----

  /** The frames that chunk `i` closes. */
  function ClosedBy(chunks: seq<Bytes>, i: nat): seq<Frame>
    requires i < |chunks|
  {
    Scan(Scan(FRESH, Flatten(chunks[..i])).reader, chunks[i]).frames
  }

  /** Chunk `i` is printed again: an error was shown by its end, or on the Responses wire it leaves a frame open. */
  predicate PrintedAgain(u: Upstream, chunks: seq<Bytes>, i: nat)
    requires i < |chunks|
  {
    var read := Scan(FRESH, Flatten(chunks[..i + 1]));
    SomeWrapped(u, read.frames) || (u.responses && read.reader.IsOpen())
  }

  /** A chunk that is printed again loses its terminators, and then they do not count. */
  predicate NotedIn(u: Upstream, chunks: seq<Bytes>, i: nat)
    requires i < |chunks|
  {
    if PrintedAgain(u, chunks, i) then SomeEndsPrinted(u, ClosedBy(chunks, i)) else SomeEnds(u, ClosedBy(chunks, i))
  }

  predicate Noted(u: Upstream, chunks: seq<Bytes>) {
    exists i | 0 <= i < |chunks| :: NotedIn(u, chunks, i)
  }

  lemma {:induction false} NotedMore(u: Upstream, chunks: seq<Bytes>)
    requires chunks != []
    ensures Noted(u, chunks) <==> Noted(u, chunks[..|chunks| - 1]) || NotedIn(u, chunks, |chunks| - 1)
  {
    hide SomeEnds, SomeEndsPrinted, SomeWrapped, Scan, Flatten;
    var init := chunks[..|chunks| - 1];
    forall i | 0 <= i < |init| ensures NotedIn(u, init, i) == NotedIn(u, chunks, i) {
      assert init[..i] == chunks[..i] && init[..i + 1] == chunks[..i + 1];
    }
  }

  lemma {:induction false} NotesStep(u: Upstream, g: GateState, bytes: Bytes, s: Scanned)
    requires FirstFailure(u, s.frames).None?
    ensures PushRead(u, g.(reader := s.reader), bytes, s.frames).0.sawTerminal
         == (g.sawTerminal
             || if g.sawVendorError || AnyWrapped(u, s.frames) || (u.responses && s.reader.IsOpen())
                then AnyEnds(u, NotDone(u, s.frames)) else AnyEnds(u, s.frames))
  {
    hide FormatAll, FirstFailure;
  }

  lemma NotesPush(u: Upstream, run: Run, c: Bytes)
    requires run.failed.None? && StepRun(u, run, c).failed.None? && !run.gate.dropRest && Break(run.gate.reader, c).None?
    ensures var s := Scan(run.gate.reader, c);
            StepRun(u, run, c).gate == PushRead(u, run.gate.(reader := s.reader), c, s.frames).0
  {
    hide Scan, Break, PushRead;
  }

  lemma {:induction false} WrappedConcat(u: Upstream, a: seq<Frame>, b: seq<Frame>)
    ensures SomeWrapped(u, a + b) <==> SomeWrapped(u, a) || SomeWrapped(u, b)
  {
    forall f ensures f in a + b <==> f in a || f in b {
    }
  }

  /** Without a failed frame the gate has noted an end exactly when one counts. */
  lemma {:induction false} NotesEnds(u: Upstream, chunks: seq<Bytes>)
    requires Break(FRESH, Flatten(chunks)).None? && OpensInTime(chunks) && !SomeFails(u, Scan(FRESH, Flatten(chunks)).frames)
    ensures After(u, chunks).gate.sawTerminal <==> Noted(u, chunks)
    decreases |chunks|
  {
    hide Scan, Break, FirstFailure, AnyWrapped, AnyEnds, PushOf, PushRead, NotDone, SomeWrapped, SomeEnds, SomeEndsPrinted;
    if chunks != [] {
      var n := |chunks| - 1;
      var init, c := chunks[..n], chunks[n];
      var before := Scan(FRESH, Flatten(init));
      var s := Scan(before.reader, c);
      PrefixReads(chunks);
      NotesEnds(u, init);
      NotedMore(u, chunks);
      AcceptedIffInTime(u, init);
      AcceptedIffInTime(u, chunks);
      TracksBody(u, init);
      VendorErrorIffShown(u, init);
      FailureMeaning(u, before.frames);
      FailureMeaning(u, s.frames);
      NotesPush(u, After(u, init), c);
      NotesStep(u, After(u, init).gate, c, s);
      EndsMeaning(u, s.frames);
      PrintedMeaning(u, s.frames);
      WrappedMeaning(u, before.frames);
      WrappedMeaning(u, s.frames);
      WrappedConcat(u, before.frames, s.frames);
      assert chunks[..n + 1] == chunks;
    }
  }

  // ---- the finish ----

  /** The frame that only the end of the body closes. */
  function LastFrame(body: Bytes): Option<Frame> {
    match EndOfBody(Scan(FRESH, body).reader).1
    case Ok(last) => last
    case Err(_) => None
  }

  /** The terminator, or the start of one that was cut off. */
  predicate StartsTerminator(u: Upstream, f: Frame) {
    u.trim(f.data) != [] && u.trim(f.data) <= DONE
  }

  /** Behind a vendor error the frame closed by the end of the body is printed, unless it is a terminator or its start. */
  function PrintedLast(u: Upstream, body: Bytes): Bytes {
    match LastFrame(body)
    case Some(f) => if StartsTerminator(u, f) then [] else Format(f)
    case None => []
  }

  /** The answer of the finish to a body that shows a frame. */
  function Finished(u: Upstream, chunks: seq<Bytes>, tail: Bytes): EndResult {
    var body := Flatten(chunks);
    var s := Scan(FRESH, body);
    if SomeFails(u, s.frames) then Done([])
    else match EndOfBody(s.reader).1
      case Err(e) => Append(tail, ReadErrorText(e))
      case Ok(last) =>
        if last.Some? && Fails(u, last.value) then Replace(u.decodeFailure(last.value).value)
        else if Noted(u, chunks) || (last.Some? && Ends(u, last.value)) then Done(tail)
        else Append(tail, INCOMPLETE)
  }

  lemma {:induction false} EndOfSeen(u: Upstream, g: GateState)
    requires !g.dropRest
    ensures var tail := g.held + if g.sawVendorError then match EndOfBody(g.reader).1
                                                           case Ok(Some(f)) => if StartsTerminator(u, f) then [] else Format(f)
                                                           case _ => []
                                 else [];
            match EndOfBody(g.reader).1
            case Err(e) => g.sawFrame ==> EndOf(u, g) == Append(tail, ReadErrorText(e))
            case Ok(None) => g.sawFrame ==> EndOf(u, g) == if g.sawTerminal then Done(tail) else Append(tail, INCOMPLETE)
            case Ok(Some(f)) =>
              EndOf(u, g) == if Fails(u, f) then Replace(u.decodeFailure(f).value)
                             else if g.sawTerminal || Ends(u, f) then Done(tail) else Append(tail, INCOMPLETE)
  {
    hide EndOfBody, Format;
    assert g.held + [] == g.held;
  }

  /**
   A body within the limits that shows a frame: a failed frame has ended the output already, or takes the place of the
   tail; else a body that broke a limit or showed no end gets its error. The tail is what is held, or behind a vendor
   error the last frame printed.
   */
  lemma {:induction false} FinishTells(u: Upstream, chunks: seq<Bytes>)
    requires Break(FRESH, Flatten(chunks)).None? && OpensInTime(chunks) && BodyFrames(Flatten(chunks)) != []
    ensures var g, body := After(u, chunks).gate, Flatten(chunks);
            EndOf(u, g) == Finished(u, chunks, if SomeWrapped(u, Scan(FRESH, body).frames) then PrintedLast(u, body) else g.held)
  {
    hide Scan, Break, FirstFailure, AnyWrapped, EndOf, EndOfBody, SomeWrapped, SomeEnds, SomeFails, Noted, PushOf, Format, StartsTerminator;
    var g, s := After(u, chunks).gate, Scan(FRESH, Flatten(chunks));
    AcceptedCounts(u, chunks);
    TracksBody(u, chunks);
    VendorErrorIffShown(u, chunks);
    FailureMeaning(u, s.frames);
    WrappedMeaning(u, s.frames);
    NothingHeldAfterError(u, chunks);
    if g.dropRest {
      DroppedEnd(u, g);
    } else {
      NotesEnds(u, chunks);
      EndOfSeen(u, g);
    }
  }

  lemma DroppedEnd(u: Upstream, g: GateState)
    requires g.dropRest
    ensures EndOf(u, g) == Done([])
  {
  }

  /** Where no terminator is an end of its own, or none is dropped, an end counts exactly when the body shows one. */
  lemma {:induction false} NotedIffEnds(u: Upstream, chunks: seq<Bytes>)
    requires WrappedIsPrinted(u)
    requires u.responses ==> forall f | f in Scan(FRESH, Flatten(chunks)).frames :: u.terminal(f) ==> !Terminator(u, f)
    ensures Noted(u, chunks) <==> SomeEnds(u, Scan(FRESH, Flatten(chunks)).frames)
    decreases |chunks|
  {
    hide Scan, Break, Noted, NotedIn, PrintedAgain, SomeEnds, SomeEndsPrinted, SomeWrapped, WrappedIsPrinted, Terminator, Flatten;
    if chunks == [] {
      NothingNoted(u);
    } else {
      var n := |chunks| - 1;
      var before := Scan(FRESH, Flatten(chunks[..n]));
      var s := Scan(before.reader, chunks[n]);
      PrefixReads(chunks);
      assert forall f | f in before.frames :: f in Scan(FRESH, Flatten(chunks)).frames;
      assert forall f | f in s.frames :: f in Scan(FRESH, Flatten(chunks)).frames;
      NotedIffEnds(u, chunks[..n]);
      NotedMore(u, chunks);
      NotedInMeaning(u, chunks, before, s);
      EndsConcat(u, before.frames, s.frames);
    }
  }

  lemma NothingNoted(u: Upstream)
    ensures !Noted(u, []) && !SomeEnds(u, Scan(FRESH, Flatten([])).frames)
  {
  }

  lemma {:induction false} EndsConcat(u: Upstream, a: seq<Frame>, b: seq<Frame>)
    ensures SomeEnds(u, a + b) <==> SomeEnds(u, a) || SomeEnds(u, b)
  {
    forall f ensures f in a + b <==> f in a || f in b {
    }
  }

  lemma {:induction false} NotedInMeaning(u: Upstream, chunks: seq<Bytes>, before: Scanned, s: Scanned)
    requires chunks != [] && WrappedIsPrinted(u)
    requires before == Scan(FRESH, Flatten(chunks[..|chunks| - 1])) && s == Scan(before.reader, chunks[|chunks| - 1])
    requires Scan(FRESH, Flatten(chunks)).frames == before.frames + s.frames
    requires u.responses ==> forall f | f in s.frames :: u.terminal(f) ==> !Terminator(u, f)
    ensures SomeEnds(u, before.frames) || (NotedIn(u, chunks, |chunks| - 1) <==> SomeEnds(u, s.frames))
  {
    hide Scan, Flatten;
    var n := |chunks| - 1;
    assert chunks[..n + 1] == chunks;
    WrappedConcat(u, before.frames, s.frames);
    if f :| f in before.frames && u.wrapped(f.data) {
      assert Ends(u, f);
    } else if f :| f in s.frames && u.wrapped(f.data) {
      assert Ends(u, f) && !u.IsDone(f);
    }
  }

  /**
   On the wires other than Responses a stream that shows a frame and breaks no limit is complete exactly when one of its
   frames is terminal or a vendor error; it gets the error behind it exactly when none is.
   */
  lemma {:induction false} DoneIffEndShown(u: Upstream, chunks: seq<Bytes>)
    requires !u.responses && WrappedIsPrinted(u) && Break(FRESH, Flatten(chunks)).None? && OpensInTime(chunks)
    requires BodyFrames(Flatten(chunks)) != [] && EndOfBody(Scan(FRESH, Flatten(chunks)).reader).1.Ok?
    ensures var end := EndOf(u, After(u, chunks).gate);
            && (end.Done? <==> exists f | f in BodyFrames(Flatten(chunks)) :: u.terminal(f) || u.wrapped(f.data))
            && (!end.Done? ==> end.Append? && end.message == INCOMPLETE)
  {
    hide Scan, Break, EndOf, EndOfBody, Noted, SomeWrapped, WrappedIsPrinted, Format, StartsTerminator, OpensInTime;
    var s, last := Scan(FRESH, Flatten(chunks)), LastFrame(Flatten(chunks));
    FinishTells(u, chunks);
    NotedIffEnds(u, chunks);
    EndsConcat(u, s.frames, if last.Some? then [last.value] else []);
    assert s.frames + [] == s.frames;
    assert SomeEnds(u, BodyFrames(Flatten(chunks)))
      <==> exists f | f in BodyFrames(Flatten(chunks)) :: u.terminal(f) || u.wrapped(f.data) by {
      assert forall f :: Ends(u, f) == (u.terminal(f) || u.wrapped(f.data));
    }
  }

  /** The driver adds nothing to such a stream that is complete and shows no error, and the error alone to one that is not. */
  lemma {:induction false} CompleteBodyPasses(u: Upstream, chunks: seq<Bytes>)
    requires !u.responses && WrappedIsPrinted(u) && Break(FRESH, Flatten(chunks)).None? && OpensInTime(chunks)
    requires BodyFrames(Flatten(chunks)) != [] && EndOfBody(Scan(FRESH, Flatten(chunks)).reader).1.Ok?
    requires forall f | f in BodyFrames(Flatten(chunks)) :: !u.wrapped(f.data)
    ensures Driven(u, chunks, None)
         == Flatten(chunks) + if exists f | f in BodyFrames(Flatten(chunks)) :: u.terminal(f) then [] else u.ErrorBytes(INCOMPLETE)
  {
    hide Scan, Break, EndOf, EndOfBody, WrappedIsPrinted, Format, OpensInTime, FirstFailure, AnyWrapped, SomeEnds;
    var frames, body, run := BodyFrames(Flatten(chunks)), Flatten(chunks), After(u, chunks);
    DoneIffEndShown(u, chunks);
    assert (exists f | f in frames :: u.terminal(f) || u.wrapped(f.data)) <==> exists f | f in frames :: u.terminal(f);
    AcceptedIffInTime(u, chunks);
    VendorErrorIffShown(u, chunks);
    WrappedMeaning(u, Scan(FRESH, body).frames);
    FailureMeaning(u, Scan(FRESH, body).frames);
    assert forall f | f in Scan(FRESH, body).frames :: f in frames;
    PassesWholeBody(u, chunks);
    assert body + [] == body;
    match EndOf(u, run.gate)
    case Append(tail, message) => ConcatAssoc(run.sent, tail, u.ErrorBytes(message));
    case _ =>
  }

  /** A body without a frame ends in what the caller makes of it as a whole: its error, its completion, or the missing end. */
  lemma {:induction false} FramelessEnd(u: Upstream, chunks: seq<Bytes>)
    requires Break(FRESH, Flatten(chunks)).None? && OpensInTime(chunks) && BodyFrames(Flatten(chunks)) == []
    ensures var body := Flatten(chunks);
            Driven(u, chunks, None) == if u.noFrameMessage(body) != INCOMPLETE then u.ErrorBytes(u.noFrameMessage(body))
                                       else match u.promote(body)
                                            case Some(bytes) => bytes
                                            case None => u.ErrorBytes(INCOMPLETE)
  {
    hide Scan, Break, FirstFailure, EndOfBody, Format, OpensInTime, AnyWrapped;
    var run, body := After(u, chunks), Flatten(chunks);
    AcceptedCounts(u, chunks);
    TracksBody(u, chunks);
    VendorErrorIffShown(u, chunks);
    NothingHeldAfterError(u, chunks);
    NothingEnds(u, run.gate, body);
    assert forall x: Bytes :: [] + x == x;
  }

  lemma {:induction false} NothingEnds(u: Upstream, g: GateState, body: Bytes)
    requires !g.sawFrame && !g.dropRest && g.held == body
    requires match EndOfBody(g.reader).1 { case Ok(Some(_)) => false case _ => true }
    ensures EndOf(u, g) == if u.noFrameMessage(body) != INCOMPLETE then Replace(u.noFrameMessage(body))
                           else match u.promote(body)
                                case Some(bytes) => Promote(bytes)
                                case None => Replace(INCOMPLETE)
  {
    hide EndOfBody;
  }

  /** One letter: the start of a line. */
  const X: Bytes := [120]

  /** On the Responses wire a terminator that is an end of its own counts only if its read is passed on unchanged. */
  lemma {:induction false} DroppedEndIsForgotten(u: Upstream, f: Frame)
    requires u.responses && IsTextFrame(f) && IsClean(f) && u.terminal(f) && Terminator(u, f)
    requires !u.wrapped(f.data) && u.decodeFailure(f).None?
    requires Break(FRESH, Format(f) + X).None? && |Format(f) + X| <= MAX_UPSTREAM_BODY
    ensures EndOf(u, After(u, [Format(f) + X]).gate).Append?
    ensures EndOf(u, After(u, [Format(f), X]).gate).Done?
  {
    hide Scan, Break, EndOf, IsText, IsClean, IsTextFrame, Format, FirstFailure, AnyWrapped, AnyEnds, After;
    var joined, cut := [Format(f) + X], [Format(f), X];
    ReadsCleanFrame(f);
    ScanConcat(FRESH, Format(f), X);
    LetterEnds();
    assert [f] + [] == [f];
    OneChunk(Format(f) + X);
    OneChunk(Format(f));
    assert joined[..0] == [] && joined[..1] == joined && cut[..0] == [] && cut[..1] == [Format(f)];
    assert Flatten(cut) == Format(f) + X;
    assert cut[..1] == cut[..|cut| - 1];
    assert f in [f] && forall g | g in [f] :: g == f;
    FinishTells(u, joined);
    FinishTells(u, cut);
    NothingScanned(FRESH);
    assert ClosedBy(cut, 0) == [f] && ClosedBy(joined, 0) == [f];
    assert !PrintedAgain(u, cut, 0) && PrintedAgain(u, joined, 0);
    assert NotedIn(u, cut, 0) && !NotedIn(u, joined, 0);
  }

  lemma LetterEnds()
    ensures Scan(FRESH, X) == Scanned(Reader(X, None, [], false), [])
    ensures EndOfBody(Reader(X, None, [], false)).1 == Ok(None)
  {
    AsciiIsText(X);
    TextIsKept(X);
    assert Find(COLON, X, 0) == None;
  }

  /** An error is one frame of the event `error`. */
  lemma {:induction false} ErrorReads(u: Upstream, message: string)
    requires ErrorsPrintable(u)
    ensures Scan(FRESH, u.ErrorBytes(message)) == Scanned(FRESH, [Frame(Some([101, 114, 114, 111, 114]), u.errorJson(message))])
  {
    hide Scan, Format;
    ScanError(u, message);
  }

  // ---- refused chunks ----

  /** Why a chunk behind a body within the limits is refused. */
  function Refusal(u: Upstream, body: Bytes, c: Bytes): Option<string> {
    var frames := Scan(FRESH, body).frames;
    if SomeFails(u, frames) then None
    else if frames == [] && |body + c| > MAX_UPSTREAM_BODY then Some(INCOMPLETE)
    else match Break(FRESH, body + c)
      case None => None
      case Some(e) =>
        if frames != [] then Some(ReadErrorText(e))
        else if u.noFrameMessage(body + c) != INCOMPLETE then Some(u.noFrameMessage(body + c))
        else None
  }

  /**
   Nothing is refused behind a failed frame. Without a frame a read over the limit is, and one that breaks a limit of the
   reader is if it makes the body an error; with one, the reader's error is the refusal. A chunk kept in spite of the
   reader's error adds to what is held, and the reader starts afresh.
   */
  lemma {:induction false} RefusedFor(u: Upstream, chunks: seq<Bytes>, c: Bytes)
    requires Break(FRESH, Flatten(chunks)).None? && OpensInTime(chunks)
    ensures var run, body, next := After(u, chunks), Flatten(chunks), StepRun(u, After(u, chunks), c);
            && next.failed == Refusal(u, body, c)
            && (Break(FRESH, body + c).Some? ==> next.sent == run.sent)
            && (Break(FRESH, body + c).Some? && next.failed.None? && !SomeFails(u, Scan(FRESH, body).frames) ==>
                  next.gate == NEW.(held := body + c))
  {
    hide Scan, Break, FirstFailure, SomeFails, FormatAll, NotDone, AnyWrapped, AnyEnds;
    var run, body := After(u, chunks), Flatten(chunks);
    AcceptedCounts(u, chunks);
    TracksBody(u, chunks);
    FailureMeaning(u, Scan(FRESH, body).frames);
    if Scan(FRESH, body).frames == [] {
      NotesNothing(u, chunks);
    }
    BreakConcat(FRESH, body, c);
    NothingHeldAfterError(u, chunks);
    assert run.sent + [] == run.sent;
  }

  lemma {:induction false} NotesNothing(u: Upstream, chunks: seq<Bytes>)
    requires Break(FRESH, Flatten(chunks)).None? && OpensInTime(chunks) && Scan(FRESH, Flatten(chunks)).frames == []
    ensures var g := After(u, chunks).gate;
            !g.sawTerminal && !g.sawVendorError && !g.sawFrame && !g.dropRest
  {
    hide Scan, Break, FirstFailure, AnyWrapped, Noted, OpensInTime;
    AcceptedCounts(u, chunks);
    VendorErrorIffShown(u, chunks);
    FailureMeaning(u, []);
    WrappedMeaning(u, []);
    NotesEnds(u, chunks);
    forall i | 0 <= i < |chunks| ensures !NotedIn(u, chunks, i) {
      ClosesNothing(chunks, i);
    }
    assert !Noted(u, chunks) by {
      NoneNoted(u, chunks);
    }
  }

  lemma NoneNoted(u: Upstream, chunks: seq<Bytes>)
    requires forall i | 0 <= i < |chunks| :: !NotedIn(u, chunks, i)
    ensures !Noted(u, chunks)
  {
    hide NotedIn;
  }

  lemma {:induction false} ClosesNothing(chunks: seq<Bytes>, i: nat)
    requires i < |chunks| && Scan(FRESH, Flatten(chunks)).frames == []
    ensures ClosedBy(chunks, i) == []
    decreases |chunks|
  {
    hide Scan;
    var n := |chunks| - 1;
    PrefixReads(chunks);
    if i < n {
      ClosesNothing(chunks[..n], i);
      assert chunks[..n][..i] == chunks[..i];
    }
  }
}
