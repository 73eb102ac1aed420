/** What a client stream delivers depends on the bytes of the body, not on the reads that bring them. */
module LiveRuns {
  import opened Utf8
  import opened Sse
  import opened Live

  /** The body, or the stream error after it, has shown a frame or ends the stream anyway. */
  predicate Shows<E>(body: Bytes, end: Option<E>) {
    BodyFrames(body) != [] || end.Some?
  }

  /** The same stream with its remaining reads joined into what they say. */
  function Joined<D, A, V, E>(c: Codec<D, A, V, E>, s: Stream<D, A, V, E>): Stream<D, A, V, E> {
    var scanned := Scan(s.reader, Flatten(s.chunks));
    Stream(scanned.reader, Absorb(c, s.progress, scanned.frames), s.eof, [], [], s.end)
  }

  /** The start of the body is only looked at when no frame was seen. */
  lemma {:induction false} LeftoverUnused<D, A, V, E>(c: Codec<D, A, V, E>, s: Stream<D, A, V, E>, leftover: Bytes)
    requires s.chunks == [] && !s.eof
    requires s.progress.sawFrame || s.end.Some? || (EndOfBody(s.reader).1.Ok? && EndOfBody(s.reader).1.value.Some?)
    ensures Rest(c, s.(leftover := leftover)) == Rest(c, s)
  {
  }

  lemma {:induction false} AbsorbSeesFrames<D, A, V, E>(c: Codec<D, A, V, E>, p: Progress<D, A, V, E>, frames: seq<Frame>)
    requires p.stop.None? || p.sawFrame
    ensures Absorb(c, p, frames).sawFrame == (p.sawFrame || frames != [])
    decreases |frames|
  {
    if frames != [] {
      AbsorbSeesFrames(c, p, frames[..|frames| - 1]);
      StopMeansFrame(c, p, frames[..|frames| - 1]);
    }
  }

  lemma {:induction false} StopMeansFrame<D, A, V, E>(c: Codec<D, A, V, E>, p: Progress<D, A, V, E>, frames: seq<Frame>)
    requires p.stop.None? || p.sawFrame
    ensures Absorb(c, p, frames).stop.Some? ==> Absorb(c, p, frames).sawFrame
    decreases |frames|
  {
    if frames != [] {
      StopMeansFrame(c, p, frames[..|frames| - 1]);
    }
  }

  /** Reads within the limits may be joined into one. */
  lemma {:induction false} RestJoined<D, A, V, E>(c: Codec<D, A, V, E>, s: Stream<D, A, V, E>)
    requires !s.eof && Break(s.reader, Flatten(s.chunks)).None?
    requires s.progress.stop.None? || s.progress.sawFrame
    requires var j := Joined(c, s);
             j.progress.sawFrame || j.end.Some? || (EndOfBody(j.reader).1.Ok? && EndOfBody(j.reader).1.value.Some?)
    ensures Rest(c, s) == Rest(c, Joined(c, s))
    decreases |s.chunks|
  {
    if s.chunks == [] {
      LeftoverUnused(c, Joined(c, s), s.leftover);
    } else if s.progress.stop.Some? {
      AbsorbStopped(c, s.progress, Scan(s.reader, Flatten(s.chunks)).frames);
    } else {
      FlattenFirst(s.chunks);
      ScanConcat(s.reader, s.chunks[0], Flatten(s.chunks[1..]));
      BreakConcat(s.reader, s.chunks[0], Flatten(s.chunks[1..]));
      var first := Scan(s.reader, s.chunks[0]);
      AbsorbConcat(c, s.progress, first.frames, Scan(first.reader, Flatten(s.chunks[1..])).frames);
      StopMeansFrame(c, s.progress, first.frames);
      RestJoined(c, AfterChunk(c, s));
    }
  }

  /**
   Main result: two ways of cutting a body into reads deliver the same items, for every decoder and
   assembler, when the body is within the reader's limits and shows a frame.
   */
  lemma {:induction false} SameItemsForEveryCut<D, A, V, E>(
      c: Codec<D, A, V, E>, decoder: D, assembler: A, xs: seq<Bytes>, ys: seq<Bytes>, end: Option<E>)
    requires Flatten(xs) == Flatten(ys) && Break(FRESH, Flatten(xs)).None? && Shows(Flatten(xs), end)
    ensures Rest(c, Opened(decoder, assembler, xs, end)) == Rest(c, Opened(decoder, assembler, ys, end))
  {
    var p := Opened(decoder, assembler, xs, end).progress;
    AbsorbSeesFrames(c, p, Scan(FRESH, Flatten(xs)).frames);
    RestJoined(c, Opened(decoder, assembler, xs, end));
    RestJoined(c, Opened(decoder, assembler, ys, end));
  }

  // ---- the shape of every run ----

  predicate ErrorOnlyLast<V, E>(items: seq<Item<V, E>>) {
    forall i | 0 <= i < |items| - 1 :: items[i].Ok?
  }

  predicate NoError<V, E>(items: seq<Item<V, E>>) {
    forall i | 0 <= i < |items| :: items[i].Ok?
  }

  /** At most one error, and nothing after it, from any point of any stream. */
  lemma {:induction false} AtMostOneError<D, A, V, E>(c: Codec<D, A, V, E>, s: Stream<D, A, V, E>)
    ensures ErrorOnlyLast(Rest(c, s))
    decreases |s.chunks|
  {
    if !(s.progress.stop.Some? || s.eof) && s.chunks != [] && Break(s.reader, s.chunks[0]).None? {
      AtMostOneError(c, AfterChunk(c, s));
    }
  }

  /** Events absorbed before an error come out ahead of it: they are a prefix of the rest. */
  lemma {:induction false} PendingComesFirst<D, A, V, E>(c: Codec<D, A, V, E>, s: Stream<D, A, V, E>)
    ensures Items<V, E>(s.progress.events) <= Rest(c, s)
  {
    var bare := s.(progress := s.progress.(events := []));
    RestPending(c, bare, s.progress.events);
    assert s.progress.events + [] == s.progress.events;
    assert s == bare.(progress := bare.progress.(events := s.progress.events + bare.progress.events));
  }

  lemma {:induction false} TerminalWasSeen<D, A, V, E>(c: Codec<D, A, V, E>, p: Progress<D, A, V, E>, frames: seq<Frame>)
    requires Absorb(c, p, frames).sawTerminal && !p.sawTerminal
    ensures exists f :: f in frames && c.terminal(f)
    decreases |frames|
  {
    var n := |frames| - 1;
    if Absorb(c, p, frames[..n]).sawTerminal {
      TerminalWasSeen(c, p, frames[..n]);
      var f :| f in frames[..n] && c.terminal(f);
      assert f in frames;
    } else {
      assert c.terminal(frames[n]);
    }
  }

  /** The progress of a whole body, the frame closed by its end included. */
  function AbsorbBody<D, A, V, E>(c: Codec<D, A, V, E>, decoder: D, assembler: A, body: Bytes): Progress<D, A, V, E> {
    Absorb(c, Progress(decoder, assembler, false, false, [], None), BodyFrames(body))
  }

  lemma {:induction false} WholeBodyItems<D, A, V, E>(c: Codec<D, A, V, E>, decoder: D, assembler: A, body: Bytes)
    requires Break(FRESH, body).None? && BodyFrames(body) != [] && EndOfBody(Scan(FRESH, body).reader).1.Ok?
    ensures var p := AbsorbBody(c, decoder, assembler, body);
            var j := Joined(c, Opened(decoder, assembler, [body], None));
            j.progress.stop.None? ==> Rest(c, j) == Last(c, p.(events := p.events + c.flush(p.assembler)))
  {
    var s := Opened(decoder, assembler, [body], None);
    OneChunk(body);
    var j, all := Joined(c, s), BodyFrames(body);
    var frames := Scan(FRESH, body).frames;
    var last := EndOfBody(j.reader).1.value;
    AbsorbSeesFrames(c, s.progress, all);
    assert last.Some? ==> all[..|all| - 1] == frames && all[|all| - 1] == last.value;
  }

  lemma {:induction false} LastHasError<D, A, V, E>(c: Codec<D, A, V, E>, p: Progress<D, A, V, E>)
    requires p.stop.Some? || (p.sawFrame && !p.sawTerminal)
    ensures !NoError(Last(c, p))
  {
    var items := Last(c, p);
    assert items[|items| - 1].Err?;
  }

  lemma {:induction false} FailingEnd<D, A, V, E>(c: Codec<D, A, V, E>, s: Stream<D, A, V, E>)
    requires s.chunks == [] && !s.eof
    requires s.progress.stop.Some? || s.end.Some? || (s.progress.sawFrame && EndOfBody(s.reader).1.Err?)
    ensures !NoError(Rest(c, s))
  {
    var items := Rest(c, s);
    assert items[|items| - 1].Err?;
  }

  /** A stream that showed a frame ends without an error only after a terminal frame. */
  lemma {:induction false} QuietEndNeedsTerminal<D, A, V, E>(
      c: Codec<D, A, V, E>, decoder: D, assembler: A, chunks: seq<Bytes>, end: Option<E>)
    requires Break(FRESH, Flatten(chunks)).None? && BodyFrames(Flatten(chunks)) != []
    requires NoError(Rest(c, Opened(decoder, assembler, chunks, end)))
    ensures exists f :: f in BodyFrames(Flatten(chunks)) && c.terminal(f)
  {
    var body := Flatten(chunks);
    var s := Opened(decoder, assembler, [body], end);
    var j := Joined(c, s);
    OneChunk(body);
    SameItemsForEveryCut(c, decoder, assembler, chunks, [body], end);
    AbsorbSeesFrames(c, s.progress, Scan(FRESH, body).frames);
    RestJoined(c, s);
    if j.progress.stop.Some? || end.Some? || EndOfBody(j.reader).1.Err? {
      FailingEnd(c, j);
    } else {
      var p := AbsorbBody(c, decoder, assembler, body);
      WholeBodyItems(c, decoder, assembler, body);
      AbsorbSeesFrames(c, s.progress, BodyFrames(body));
      if p.stop.Some? || !p.sawTerminal {
        LastHasError(c, p.(events := p.events + c.flush(p.assembler)));
      }
      TerminalWasSeen(c, s.progress, BodyFrames(body));
    }
  }

  // ---- bodies beyond the reader's limits ----

  lemma {:induction false} AbsorbOnlyAddsEvents<D, A, V, E>(c: Codec<D, A, V, E>, p: Progress<D, A, V, E>, frames: seq<Frame>)
    ensures p.events <= Absorb(c, p, frames).events
    decreases |frames|
  {
    if frames != [] {
      AbsorbOnlyAddsEvents(c, p, frames[..|frames| - 1]);
    }
  }

  /** If the frames before the broken limit deliver nothing, no cut of the body does. */
  lemma {:induction false} QuietBeforeBreak<D, A, V, E>(c: Codec<D, A, V, E>, s: Stream<D, A, V, E>, e: ReadError)
    requires !s.eof && s.progress.stop.None? && Break(s.reader, Flatten(s.chunks)) == Some(e)
    requires var p := Absorb(c, s.progress, BeforeBreak(s.reader, Flatten(s.chunks)));
             p.events == [] && (p.stop.None? || p.stop.value == c.feedError(e))
    ensures Rest(c, s) == [Err(c.feedError(e))]
    decreases |s.chunks|
  {
    FlattenFirst(s.chunks);
    var rest := Flatten(s.chunks[1..]);
    BreakConcat(s.reader, s.chunks[0], rest);
    AbsorbOnlyAddsEvents(c, s.progress, BeforeBreak(s.reader, Flatten(s.chunks)));
    assert Items<V, E>([]) + [Err(c.feedError(e))] == [Err(c.feedError(e))];
    if Break(s.reader, s.chunks[0]).None? {
      var first := Scan(s.reader, s.chunks[0]);
      var q := Absorb(c, s.progress, first.frames);
      var later := BeforeBreak(first.reader, rest);
      BeforeBreakConcat(s.reader, s.chunks[0], rest);
      AbsorbConcat(c, s.progress, first.frames, later);
      AbsorbOnlyAddsEvents(c, q, later);
      if q.stop.Some? {
        AbsorbStopped(c, q, later);
      } else {
        QuietBeforeBreak(c, AfterChunk(c, s), e);
      }
    }
  }

  /** Read a byte at a time, every frame before the broken limit is delivered. */
  lemma {:induction false} BreakByteAtATime<D, A, V, E>(c: Codec<D, A, V, E>, s: Stream<D, A, V, E>, body: Bytes, e: ReadError)
    requires !s.eof && s.progress.stop.None? && s.chunks == Singles(body) && Break(s.reader, body) == Some(e)
    ensures var p := Absorb(c, s.progress, BeforeBreak(s.reader, body));
            Rest(c, s) == if p.stop.Some? then Last(c, p) else Items(p.events) + [Err(c.feedError(e))]
    decreases |body|
  {
    var b, rest := body[0], body[1..];
    assert s.chunks[0] == [b] && s.chunks[1..] == Singles(rest);
    ScanOne(s.reader, b);
    if BreakByte(s.reader, b).None? {
      var first := ScanByte(s.reader, b);
      var q := Absorb(c, s.progress, first.frames);
      AbsorbConcat(c, s.progress, first.frames, BeforeBreak(first.reader, rest));
      if q.stop.Some? {
        AbsorbStopped(c, q, BeforeBreak(first.reader, rest));
      } else {
        BreakByteAtATime(c, AfterChunk(c, s), rest, e);
      }
    }
  }

  /**
   Beyond the limits the items do depend on the cut: every cut delivers only the reader's error
   exactly when the frames before the broken limit deliver nothing else.
   */
  lemma {:induction false} BrokenBodyDependsOnCut<D, A, V, E>(
      c: Codec<D, A, V, E>, decoder: D, assembler: A, body: Bytes, end: Option<E>)
    requires Break(FRESH, body).Some?
    ensures var error := c.feedError(Break(FRESH, body).value);
            var p := Absorb(c, Progress(decoder, assembler, false, false, [], None), BeforeBreak(FRESH, body));
            (forall chunks | Flatten(chunks) == body :: Rest(c, Opened(decoder, assembler, chunks, end)) == [Err(error)])
            == (p.events == [] && (p.stop.None? || p.stop.value == error))
  {
    var e := Break(FRESH, body).value;
    var p := Absorb(c, Progress(decoder, assembler, false, false, [], None), BeforeBreak(FRESH, body));
    if p.events == [] && (p.stop.None? || p.stop.value == c.feedError(e)) {
      forall chunks | Flatten(chunks) == body
        ensures Rest(c, Opened(decoder, assembler, chunks, end)) == [Err(c.feedError(e))]
      {
        QuietBeforeBreak(c, Opened(decoder, assembler, chunks, end), e);
      }
    } else {
      FlattenSingles(body);
      var s := Opened(decoder, assembler, Singles(body), end);
      BreakByteAtATime(c, s, body, e);
      assert |Rest(c, s)| == |p.events| + 1;
      assert p.events == [] ==> Items<V, E>([]) + [Rest(c, s)[0]] == Rest(c, s);
    }
  }
}
