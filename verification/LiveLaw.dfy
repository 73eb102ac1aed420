/** What a client stream delivers, from the answers of the decoder and the assembler, written out as sequences. */
module LiveLaw {
  import opened Utf8
  import opened Sse
  import opened Live
  import opened LiveRuns
  import opened Text

  // ---- traces ----

  /** The error a frame ends the stream with: a vendor error, a failed frame, or what the decoder cannot read. */
  function FrameError<D, A, V, E>(c: Codec<D, A, V, E>, d: D, f: Frame): Option<E> {
    if c.wrapped(f.data).Some? then c.wrapped(f.data)
    else if c.failed(f).Some? then c.failed(f)
    else match c.decode(d, f).1
      case Err(e) => Some(e)
      case Ok(_) => None
  }

  /** `states` are the states of the decoder before and after each frame, `events` what it makes of the frames. */
  ghost predicate Decodes<D, A, V, E>(c: Codec<D, A, V, E>, frames: seq<Frame>, states: seq<D>, events: seq<seq<V>>) {
    && |states| == |frames| + 1 && |events| == |frames|
    && forall i | 0 <= i < |frames| ::
         && c.wrapped(frames[i].data).None? && c.failed(frames[i]).None?
         && c.decode(states[i], frames[i]) == (states[i + 1], Ok(events[i]))
  }

  /** `states` are the states of the assembler before and after each event, `outs` what it gives for them. */
  ghost predicate Assembles<D, A, V, E>(c: Codec<D, A, V, E>, events: seq<V>, states: seq<A>, outs: seq<seq<V>>) {
    && |states| == |events| + 1 && |outs| == |events|
    && forall i | 0 <= i < |events| :: c.assemble(states[i], events[i]) == (states[i + 1], outs[i])
  }

  predicate SeesTerminal<D, A, V, E>(c: Codec<D, A, V, E>, frames: seq<Frame>) {
    exists i | 0 <= i < |frames| :: c.terminal(frames[i])
  }

  lemma {:induction false} AssembleTraced<D, A, V, E>(c: Codec<D, A, V, E>, events: seq<V>, states: seq<A>, outs: seq<seq<V>>)
    requires Assembles(c, events, states, outs)
    ensures AssembleAll(c, states[0], events) == (states[|events|], Concat(outs))
    decreases |events|
  {
    if events != [] {
      var n := |events| - 1;
      assert events[..n] + [events[n]] == events && outs[..n] + [outs[n]] == outs;
      AssembleTraced(c, events[..n], states[..n + 1], outs[..n]);
      assert c.assemble(states[n], events[n]) == (states[n + 1], outs[n]);
    }
  }

  lemma {:induction false} AssembledParts<D, A, V, E>(c: Codec<D, A, V, E>, a: seq<V>, b: seq<V>, states: seq<A>, outs: seq<seq<V>>)
    requires Assembles(c, a + b, states, outs)
    ensures Assembles(c, a, states[..|a| + 1], outs[..|a|]) && Assembles(c, b, states[|a|..], outs[|a|..])
    ensures Concat(outs) == Concat(outs[..|a|]) + Concat(outs[|a|..])
  {
    var all := a + b;
    forall i | 0 <= i < |a| ensures c.assemble(states[i], a[i]) == (states[i + 1], outs[i]) {
      assert all[i] == a[i];
    }
    forall i | 0 <= i < |b| ensures c.assemble(states[|a|..][i], b[i]) == (states[|a|..][i + 1], outs[|a|..][i]) {
      assert all[|a| + i] == b[i];
    }
    assert outs[..|a|] + outs[|a|..] == outs;
    ConcatJoins(outs[..|a|], outs[|a|..]);
  }

  lemma {:induction false} LastDecoded<D, A, V, E>(c: Codec<D, A, V, E>, frames: seq<Frame>, states: seq<D>, events: seq<seq<V>>)
    requires Decodes(c, frames, states, events) && frames != []
    ensures var n := |frames| - 1;
            && Decodes(c, frames[..n], states[..n + 1], events[..n])
            && Concat(events) == Concat(events[..n]) + events[n]
            && FrameError(c, states[n], frames[n]).None? && c.decode(states[n], frames[n]) == (states[n + 1], Ok(events[n]))
  {
    var n := |frames| - 1;
    assert c.decode(states[n], frames[n]) == (states[n + 1], Ok(events[n]));
  }

  lemma SeesLast<D, A, V, E>(c: Codec<D, A, V, E>, frames: seq<Frame>)
    requires frames != []
    ensures var n := |frames| - 1;
            SeesTerminal(c, frames) <==> SeesTerminal(c, frames[..n]) || c.terminal(frames[n])
  {
    var n := |frames| - 1;
    if SeesTerminal(c, frames) {
      var i :| 0 <= i < |frames| && c.terminal(frames[i]);
      assert i < n ==> c.terminal(frames[..n][i]);
    }
    if SeesTerminal(c, frames[..n]) {
      var i :| 0 <= i < n && c.terminal(frames[..n][i]);
      assert c.terminal(frames[i]);
    }
  }

  /** What a stream has absorbed, from the traces. */
  lemma {:induction false} AbsorbTraced<D, A, V, E>(c: Codec<D, A, V, E>, frames: seq<Frame>, ds: seq<D>, events: seq<seq<V>>,
                                                    states: seq<A>, outs: seq<seq<V>>)
    requires Decodes(c, frames, ds, events) && Assembles(c, Concat(events), states, outs)
    ensures Absorb(c, Progress(ds[0], states[0], false, false, [], None), frames)
         == Progress(ds[|frames|], states[|Concat(events)|], frames != [], SeesTerminal(c, frames), Concat(outs), None)
    decreases |frames|
  {
    if frames == [] {
      assert |outs| == 0;
    } else {
      var n := |frames| - 1;
      var before := Concat(events[..n]);
      LastDecoded(c, frames, ds, events);
      SeesLast(c, frames);
      AssembledParts(c, before, events[n], states, outs);
      var m := |before|;
      AbsorbTraced(c, frames[..n], ds[..n + 1], events[..n], states[..m + 1], outs[..m]);
      AssembleTraced(c, events[n], states[m..], outs[m..]);
    }
  }

  lemma {:induction false} AssembleTrace<D, A, V, E>(c: Codec<D, A, V, E>, a: A, events: seq<V>) returns (states: seq<A>, outs: seq<seq<V>>)
    ensures Assembles(c, events, states, outs) && states[0] == a
    decreases |events|
  {
    if events == [] {
      states, outs := [a], [];
    } else {
      var n := |events| - 1;
      states, outs := AssembleTrace(c, a, events[..n]);
      var (next, out) := c.assemble(states[n], events[n]);
      var all, more := states + [next], outs + [out];
      forall i | 0 <= i < |events| ensures c.assemble(all[i], events[i]) == (all[i + 1], more[i]) {
        assert i < n ==> events[..n][i] == events[i];
      }
      states, outs := all, more;
    }
  }

  lemma {:induction false} DecodeTrace<D, A, V, E>(c: Codec<D, A, V, E>, d: D, frames: seq<Frame>)
    returns (k: nat, states: seq<D>, events: seq<seq<V>>)
    ensures k <= |frames| && Decodes(c, frames[..k], states, events) && states[0] == d
    ensures k < |frames| ==> FrameError(c, states[k], frames[k]).Some?
    decreases |frames|
  {
    if frames == [] {
      k, states, events := 0, [d], [];
    } else {
      var n := |frames| - 1;
      k, states, events := DecodeTrace(c, d, frames[..n]);
      assert frames[..n][..k] == frames[..k];
      if k == n && FrameError(c, states[n], frames[n]).None? {
        var (next, decoded) := c.decode(states[n], frames[n]);
        var all, more := states + [next], events + [decoded.value];
        assert frames[..n + 1] == frames;
        forall i | 0 <= i < |frames|
          ensures c.wrapped(frames[i].data).None? && c.failed(frames[i]).None?
          ensures c.decode(all[i], frames[i]) == (all[i + 1], Ok(more[i]))
        {
          assert i < n ==> frames[..n][i] == frames[i];
        }
        k, states, events := n + 1, all, more;
      }
    }
  }

  // ---- what is delivered ----

  /** What comes after the events of a stream whose frames are all decoded. */
  function Closing<D, A, V, E>(c: Codec<D, A, V, E>, body: Bytes, end: Option<E>, assembler: A): seq<Item<V, E>> {
    if end.Some? then [Err(end.value)]
    else match EndOfBody(Scan(FRESH, body).reader).1
      case Err(e) => [Err(c.feedError(e))]
      case Ok(_) =>
        Items(c.flush(assembler)) + if SeesTerminal(c, BodyFrames(body)) then [] else [Err(c.incomplete)]
  }

  /** A frame that is an error stops the stream where it stands. */
  lemma {:induction false} AbsorbToError<D, A, V, E>(c: Codec<D, A, V, E>, p: Progress<D, A, V, E>, frames: seq<Frame>, k: nat)
    requires k < |frames| && Absorb(c, p, frames[..k]).stop.None?
    requires FrameError(c, Absorb(c, p, frames[..k]).decoder, frames[k]).Some?
    ensures var before, all := Absorb(c, p, frames[..k]), Absorb(c, p, frames);
            && all.events == before.events && all.assembler == before.assembler && all.sawFrame
            && all.stop == FrameError(c, before.decoder, frames[k])
  {
    var one := frames[..k + 1];
    assert one[..k] == frames[..k] && one[k] == frames[k];
    assert frames == one + frames[k + 1..];
    AbsorbConcat(c, p, one, frames[k + 1..]);
    AbsorbStopped(c, Absorb(c, p, one), frames[k + 1..]);
  }

  /** An error in the frame that only the end of the body closes comes behind the assembler's tail, any other at once. */
  function ErrorItems<D, A, V, E>(c: Codec<D, A, V, E>, body: Bytes, k: nat, assembler: A, error: E): seq<Item<V, E>> {
    (if k < |Scan(FRESH, body).frames| then [] else Items(c.flush(assembler))) + [Err(error)]
  }

  /** The items of a stream that has absorbed `p` from the whole body. */
  function Remaining<D, A, V, E>(c: Codec<D, A, V, E>, body: Bytes, end: Option<E>, early: bool, p: Progress<D, A, V, E>): seq<Item<V, E>> {
    Items(p.events)
    + if p.stop.Some? then (if early then [] else Items(c.flush(p.assembler))) + [Err(p.stop.value)]
      else if end.Some? then [Err(end.value)]
      else match EndOfBody(Scan(FRESH, body).reader).1
        case Err(e) => [Err(c.feedError(e))]
        case Ok(_) => Items(c.flush(p.assembler)) + if p.sawTerminal then [] else [Err(c.incomplete)]
  }

  lemma {:induction false} JoinedItems<D, A, V, E>(c: Codec<D, A, V, E>, decoder: D, assembler: A, body: Bytes, end: Option<E>)
    requires Break(FRESH, body).None? && (FramesOf(body, end) != [] || end.Some?)
    ensures var start := Progress(decoder, assembler, false, false, [], None);
            Rest(c, Joined(c, Opened(decoder, assembler, [body], end)))
            == Remaining(c, body, end, Absorb(c, start, Scan(FRESH, body).frames).stop.Some?, Absorb(c, start, FramesOf(body, end)))
  {
    hide Items, Scan, EndOfBody, AbsorbOne, Break, Last;
    var start := Progress(decoder, assembler, false, false, [], None);
    OneChunk(body);
    var s := Joined(c, Opened(decoder, assembler, [body], end));
    var frames := Scan(FRESH, body).frames;
    AbsorbSeesFrames(c, start, frames);
    if s.progress.stop.Some? {
      StoppedItems(c, start, frames, body, end);
      LastStopped(c, s.progress);
    } else if end.None? {
      match EndOfBody(s.reader).1
      case Err(_) =>
      case Ok(None) => FlushedItems(c, s.progress);
      case Ok(Some(f)) =>
        LastFrameItems(c, start, frames, f);
    }
  }

  lemma LastStopped<D, A, V, E>(c: Codec<D, A, V, E>, p: Progress<D, A, V, E>)
    requires p.stop.Some?
    ensures Last(c, p) == Items(p.events) + ([] + [Err(p.stop.value)])
  {
  }

  lemma {:induction false} StoppedItems<D, A, V, E>(c: Codec<D, A, V, E>, start: Progress<D, A, V, E>, frames: seq<Frame>,
                                                    body: Bytes, end: Option<E>)
    requires frames == Scan(FRESH, body).frames && Absorb(c, start, frames).stop.Some?
    ensures Absorb(c, start, FramesOf(body, end)) == Absorb(c, start, frames)
  {
    match EndOfBody(Scan(FRESH, body).reader).1
    case Ok(Some(f)) =>
      AbsorbConcat(c, start, frames, [f]);
      AbsorbStopped(c, Absorb(c, start, frames), [f]);
    case _ =>
  }

  /** Behind the last events: the tail of the assembler, then the error if there is one. */
  function Tailed<D, A, V, E>(c: Codec<D, A, V, E>, p: Progress<D, A, V, E>): seq<Item<V, E>> {
    Items(c.flush(p.assembler))
    + if p.stop.Some? then [Err(p.stop.value)] else if p.sawTerminal then [] else [Err(c.incomplete)]
  }

  lemma {:induction false} FlushedItems<D, A, V, E>(c: Codec<D, A, V, E>, p: Progress<D, A, V, E>)
    requires p.sawFrame
    ensures Last(c, p.(events := p.events + c.flush(p.assembler))) == Items(p.events) + Tailed(c, p)
  {
    hide Items;
    ItemsAhead(p.events, c.flush(p.assembler),
               if p.stop.Some? then [Err(p.stop.value)] else if p.sawTerminal then [] else [Err(c.incomplete)]);
  }

  lemma {:induction false} LastFrameItems<D, A, V, E>(c: Codec<D, A, V, E>, start: Progress<D, A, V, E>, frames: seq<Frame>, f: Frame)
    requires Absorb(c, start, frames).stop.None?
    ensures var q := AbsorbOne(c, Absorb(c, start, frames), f);
            && Absorb(c, start, frames + [f]) == q && q.sawFrame
            && Last(c, q.(events := q.events + c.flush(q.assembler))) == Items(q.events) + Tailed(c, q)
  {
    hide AbsorbOne, Last, Tailed, Items;
    assert (frames + [f])[..|frames|] == frames;
    AbsorbOneShows(c, Absorb(c, start, frames), f);
    FlushedItems(c, AbsorbOne(c, Absorb(c, start, frames), f));
  }

  /** The progress at the first frame that is an error, or over all frames. */
  lemma {:induction false} ProgressTraced<D, A, V, E>(c: Codec<D, A, V, E>, frames: seq<Frame>, k: nat, ds: seq<D>,
                                                      events: seq<seq<V>>, states: seq<A>, outs: seq<seq<V>>)
    requires k <= |frames| && Decodes(c, frames[..k], ds, events) && Assembles(c, Concat(events), states, outs)
    requires k < |frames| ==> FrameError(c, ds[k], frames[k]).Some?
    ensures var p := Absorb(c, Progress(ds[0], states[0], false, false, [], None), frames);
            && p.events == Concat(outs) && p.assembler == states[|Concat(events)|]
            && p.stop == (if k < |frames| then FrameError(c, ds[k], frames[k]) else None)
            && (k == |frames| ==> p.sawTerminal == SeesTerminal(c, frames))
  {
    var start := Progress(ds[0], states[0], false, false, [], None);
    hide Decodes, Assembles, FrameError, Concat, AbsorbOne, SeesTerminal;
    AbsorbTraced(c, frames[..k], ds, events, states, outs);
    if k < |frames| {
      AbsorbToError(c, start, frames, k);
    } else {
      assert frames[..k] == frames;
    }
  }

  lemma SameLength<D, A, V, E>(c: Codec<D, A, V, E>, events: seq<V>, states: seq<A>, outs: seq<seq<V>>)
    requires Assembles(c, events, states, outs)
    ensures |states| == |events| + 1
  {
  }

  lemma {:induction false} NotStoppedBefore<D, A, V, E>(c: Codec<D, A, V, E>, p: Progress<D, A, V, E>, frames: seq<Frame>, m: nat)
    requires m <= |frames| && Absorb(c, p, frames).stop.None?
    ensures Absorb(c, p, frames[..m]).stop.None?
  {
    assert frames == frames[..m] + frames[m..];
    AbsorbConcat(c, p, frames[..m], frames[m..]);
    if Absorb(c, p, frames[..m]).stop.Some? {
      AbsorbStopped(c, Absorb(c, p, frames[..m]), frames[m..]);
    }
  }

  lemma {:induction false} ErrorIsEarly<D, A, V, E>(c: Codec<D, A, V, E>, frames: seq<Frame>, k: nat, ds: seq<D>,
                                                    events: seq<seq<V>>, states: seq<A>, outs: seq<seq<V>>, first: seq<Frame>)
    requires k < |frames| && Decodes(c, frames[..k], ds, events) && Assembles(c, Concat(events), states, outs)
    requires FrameError(c, ds[k], frames[k]).Some? && first <= frames
    ensures Absorb(c, Progress(ds[0], states[0], false, false, [], None), first).stop.Some? <==> k < |first|
  {
    var start := Progress(ds[0], states[0], false, false, [], None);
    hide Decodes, Assembles, FrameError, Concat, AbsorbOne, SeesTerminal;
    AbsorbTraced(c, frames[..k], ds, events, states, outs);
    if k < |first| {
      assert first[..k] == frames[..k] && first[k] == frames[k];
      AbsorbToError(c, start, first, k);
    } else {
      assert frames[..k][..|first|] == first;
      NotStoppedBefore(c, start, frames[..k], |first|);
    }
  }

  /** However the body is cut, the stream delivers what it does when read at once and joined. */
  lemma {:induction false} ToOneRead<D, A, V, E>(c: Codec<D, A, V, E>, decoder: D, assembler: A, chunks: seq<Bytes>, end: Option<E>)
    requires Break(FRESH, Flatten(chunks)).None? && Shows(Flatten(chunks), end)
    ensures Rest(c, Opened(decoder, assembler, chunks, end))
         == Rest(c, Joined(c, Opened(decoder, assembler, [Flatten(chunks)], end)))
  {
    var body := Flatten(chunks);
    var s := Opened(decoder, assembler, [body], end);
    OneChunk(body);
    SameItemsForEveryCut(c, decoder, assembler, chunks, [body], end);
    AbsorbSeesFrames(c, s.progress, Scan(FRESH, body).frames);
    RestJoined(c, s);
  }

  /**
   What every stream delivers for a body within the limits that shows a frame, or that the transport breaks off: in order,
   what the assembler gives for the events of the decoder, up to the first frame that is an error; then that error, or the
   transport's, or the assembler's tail and an error if no frame was terminal.
   */
  lemma {:induction false} Delivers<D, A, V, E>(c: Codec<D, A, V, E>, decoder: D, assembler: A, chunks: seq<Bytes>, end: Option<E>)
    returns (k: nat, ds: seq<D>, events: seq<seq<V>>, states: seq<A>, outs: seq<seq<V>>)
    requires Break(FRESH, Flatten(chunks)).None? && (FramesOf(Flatten(chunks), end) != [] || end.Some?)
    ensures var frames := FramesOf(Flatten(chunks), end);
            && k <= |frames| && Decodes(c, frames[..k], ds, events) && ds[0] == decoder
            && (k < |frames| ==> FrameError(c, ds[k], frames[k]).Some?)
            && Assembles(c, Concat(events), states, outs) && states[0] == assembler
            && Rest(c, Opened(decoder, assembler, chunks, end))
               == Items(Concat(outs))
                  + if k < |frames| then ErrorItems(c, Flatten(chunks), k, states[|states| - 1], FrameError(c, ds[k], frames[k]).value)
                    else Closing(c, Flatten(chunks), end, states[|states| - 1])
  {
    hide Decodes, Assembles, FrameError, Concat, Items, SeesTerminal, Absorb, Scan, Break, EndOfBody, Rest, Joined;
    var body := Flatten(chunks);
    var frames := FramesOf(body, end);
    k, ds, events := DecodeTrace(c, decoder, frames);
    states, outs := AssembleTrace(c, assembler, Concat(events));
    SameLength(c, Concat(events), states, outs);
    ProgressTraced(c, frames, k, ds, events, states, outs);
    ToOneRead(c, decoder, assembler, chunks, end);
    JoinedItems(c, decoder, assembler, body, end);
    if k < |frames| {
      ErrorIsEarly(c, frames, k, ds, events, states, outs, Scan(FRESH, body).frames);
    }
  }

  lemma {:induction false} PassedThrough<D, A, V(!new), E>(c: Codec<D, A, V, E>, events: seq<V>, states: seq<A>, outs: seq<seq<V>>)
    requires Assembles(c, events, states, outs) && forall a, v :: c.assemble(a, v).1 == [v]
    ensures Concat(outs) == events
    decreases |events|
  {
    if events != [] {
      var n := |events| - 1;
      assert events[..n] + [events[n]] == events && outs[..n] + [outs[n]] == outs;
      forall i | 0 <= i < n ensures c.assemble(states[..n + 1][i], events[..n][i]) == (states[..n + 1][i + 1], outs[..n][i]) {
        assert c.assemble(states[i], events[i]) == (states[i + 1], outs[i]);
      }
      PassedThrough(c, events[..n], states[..n + 1], outs[..n]);
      assert c.assemble(states[n], events[n]) == (states[n + 1], outs[n]);
    }
  }

  lemma {:induction false} StaysAsItIs<D, A(!new), V(!new), E>(c: Codec<D, A, V, E>, events: seq<V>, states: seq<A>, outs: seq<seq<V>>)
    requires Assembles(c, events, states, outs) && forall a, v :: c.assemble(a, v).0 == a
    ensures states[|states| - 1] == states[0]
    decreases |events|
  {
    if events != [] {
      var n := |events| - 1;
      forall i | 0 <= i < n ensures c.assemble(states[..n + 1][i], events[..n][i]) == (states[..n + 1][i + 1], outs[..n][i]) {
        assert c.assemble(states[i], events[i]) == (states[i + 1], outs[i]);
      }
      StaysAsItIs(c, events[..n], states[..n + 1], outs[..n]);
      assert c.assemble(states[n], events[n]) == (states[n + 1], outs[n]);
    }
  }

  /** With a decoder that never fails and an assembler that passes events on, the decoded events are delivered in order. */
  lemma {:induction false} DeliversDecoded<D(!new), A(!new), V(!new), E>(c: Codec<D, A, V, E>, decoder: D, assembler: A, chunks: seq<Bytes>)
    returns (ds: seq<D>, events: seq<seq<V>>)
    requires Break(FRESH, Flatten(chunks)).None? && BodyFrames(Flatten(chunks)) != []
    requires EndOfBody(Scan(FRESH, Flatten(chunks)).reader).1.Ok?
    requires forall d, f :: FrameError(c, d, f).None?
    requires forall a, v :: c.assemble(a, v) == (a, [v])
    ensures var frames := BodyFrames(Flatten(chunks));
            && Decodes(c, frames, ds, events) && ds[0] == decoder
            && Rest(c, Opened(decoder, assembler, chunks, None))
               == Items(Concat(events))
                  + (Items(c.flush(assembler)) + if SeesTerminal(c, frames) then [] else [Err(c.incomplete)])
  {
    hide Scan, Break, EndOfBody, Rest, Items, Concat, SeesTerminal, Assembles, FrameError;
    var k, states, outs;
    k, ds, events, states, outs := Delivers(c, decoder, assembler, chunks, None);
    var frames := BodyFrames(Flatten(chunks));
    assert k == |frames| ==> frames[..k] == frames;
    PassedThrough(c, Concat(events), states, outs);
    SameLength(c, Concat(events), states, outs);
    StaysAsItIs(c, Concat(events), states, outs);
  }

  // ---- bodies without a frame ----

  /** Bodies that are kept whole for a second look: short ones, and longer ones that start as JSON. */
  predicate KeptWhole(body: Bytes) {
    |body| <= MAX_ERROR_BODY || ((body[0] == 123 || body[0] == 91) && |body| <= MAX_SUCCESS_BODY)
  }

  lemma Remembers(leftover: Bytes, chunk: Bytes, rest: Bytes)
    requires KeptWhole(leftover + chunk + rest)
    ensures Remember(leftover, chunk) == leftover + chunk
  {
    var body := leftover + chunk + rest;
    if |body| > MAX_ERROR_BODY && leftover + chunk != [] {
      assert body[0] == (leftover + chunk)[0];
      if leftover != [] {
        assert leftover[0] == body[0];
      } else {
        assert chunk[0] == body[0];
      }
    }
  }

  lemma {:induction false} FramelessRest<D, A, V, E>(c: Codec<D, A, V, E>, s: Stream<D, A, V, E>)
    requires !s.eof && s.end.None? && s.progress.stop.None? && !s.progress.sawFrame && s.progress.events == []
    requires Break(s.reader, Flatten(s.chunks)).None? && Scan(s.reader, Flatten(s.chunks)).frames == []
    requires match EndOfBody(Scan(s.reader, Flatten(s.chunks)).reader).1 { case Ok(Some(_)) => false case _ => true }
    requires KeptWhole(s.leftover + Flatten(s.chunks))
    ensures Rest(c, s) == match c.promote(s.leftover + Flatten(s.chunks))
                          case Some(events) => Items(events)
                          case None => [Err(c.emptyStream(s.leftover + Flatten(s.chunks)))]
    decreases |s.chunks|
  {
    hide EndOfBody, Scan, Break, Items, AbsorbOne, KeptWhole, Remember;
    NothingShown<V, E>();
    if s.chunks == [] {
      assert s.leftover + [] == s.leftover;
      NothingRead(s.reader);
      match c.promote(s.leftover)
      case Some(events) => assert [] + events == events;
      case None =>
    } else {
      var chunk, rest := s.chunks[0], Flatten(s.chunks[1..]);
      FlattenFirst(s.chunks);
      ScanConcat(s.reader, chunk, rest);
      BreakConcat(s.reader, chunk, rest);
      ConcatAssoc(s.leftover, chunk, rest);
      Remembers(s.leftover, chunk, rest);
      FramelessRest(c, AfterChunk(c, s));
    }
  }

  lemma NothingRead(r: Reader)
    ensures Scan(r, Flatten([])) == Scanned(r, [])
  {
  }

  /** A body without a frame is looked at once more as a whole: it is a completion, or the stream is empty. */
  lemma {:induction false} FramelessItems<D, A, V, E>(c: Codec<D, A, V, E>, decoder: D, assembler: A, chunks: seq<Bytes>)
    requires Break(FRESH, Flatten(chunks)).None? && BodyFrames(Flatten(chunks)) == [] && KeptWhole(Flatten(chunks))
    ensures Rest(c, Opened(decoder, assembler, chunks, None)) == match c.promote(Flatten(chunks))
                                                                 case Some(events) => Items(events)
                                                                 case None => [Err(c.emptyStream(Flatten(chunks)))]
  {
    assert [] + Flatten(chunks) == Flatten(chunks);
    FramelessRest(c, Opened(decoder, assembler, chunks, None));
  }

  lemma {:induction false} JsonInParts(a: Bytes, b: Bytes)
    requires JsonPrefix(a + b)
    ensures JsonPrefix(a) || JsonPrefix(b)
  {
    if a == [] {
      assert a + b == b;
    } else if IsAsciiWhite(a[0]) {
      assert (a + b)[1..] == a[1..] + b;
      JsonInParts(a[1..], b);
    }
  }

  /** The first 64 KiB. */
  function Start(body: Bytes): Bytes {
    if |body| <= 65536 then body else body[..65536]
  }

  lemma RemembersStart(read: Bytes, chunk: Bytes)
    requires !JsonPrefix(Start(read)) && !JsonPrefix(chunk)
    ensures Remember(Start(read), chunk) == Start(read + chunk) && !JsonPrefix(Start(read + chunk))
  {
    var kept := Start(read + chunk);
    assert kept == Start(read) + kept[|Start(read)|..];
    var more := kept[|Start(read)|..];
    assert more <= chunk;
    if JsonPrefix(kept) {
      JsonInParts(Start(read), more);
      assert chunk == more + chunk[|more|..];
      JsonStays(more, chunk[|more|..]);
    }
  }

  lemma {:induction false} JsonStays(a: Bytes, b: Bytes)
    requires JsonPrefix(a)
    ensures JsonPrefix(a + b)
  {
    if IsAsciiWhite(a[0]) {
      assert (a + b)[1..] == a[1..] + b;
      JsonStays(a[1..], b);
    }
  }

  lemma {:induction false} FramelessTextRest<D, A, V, E>(c: Codec<D, A, V, E>, s: Stream<D, A, V, E>, read: Bytes)
    requires !s.eof && s.end.None? && s.progress.stop.None? && !s.progress.sawFrame && s.progress.events == []
    requires Break(s.reader, Flatten(s.chunks)).None? && Scan(s.reader, Flatten(s.chunks)).frames == []
    requires match EndOfBody(Scan(s.reader, Flatten(s.chunks)).reader).1 { case Ok(Some(_)) => false case _ => true }
    requires s.leftover == Start(read) && !JsonPrefix(s.leftover) && forall chunk | chunk in s.chunks :: !JsonPrefix(chunk)
    ensures Rest(c, s) == match c.promote(Start(read + Flatten(s.chunks)))
                          case Some(events) => Items(events)
                          case None => [Err(c.emptyStream(Start(read + Flatten(s.chunks))))]
    decreases |s.chunks|
  {
    hide EndOfBody, Scan, Break, Items, AbsorbOne, Remember, Start, JsonPrefix;
    NothingShown<V, E>();
    if s.chunks == [] {
      assert read + [] == read;
      NothingRead(s.reader);
      match c.promote(s.leftover)
      case Some(events) => assert [] + events == events;
      case None =>
    } else {
      var chunk, rest := s.chunks[0], Flatten(s.chunks[1..]);
      FlattenFirst(s.chunks);
      ScanConcat(s.reader, chunk, rest);
      BreakConcat(s.reader, chunk, rest);
      ConcatAssoc(read, chunk, rest);
      RemembersStart(read, chunk);
      FramelessTextRest(c, AfterChunk(c, s), read + chunk);
    }
  }

  /** A body without a frame, none of whose reads starts as JSON, is looked at again by its first 64 KiB. */
  lemma {:induction false} FramelessTextItems<D, A, V, E>(c: Codec<D, A, V, E>, decoder: D, assembler: A, chunks: seq<Bytes>)
    requires Break(FRESH, Flatten(chunks)).None? && BodyFrames(Flatten(chunks)) == []
    requires forall chunk | chunk in chunks :: !JsonPrefix(chunk)
    ensures Rest(c, Opened(decoder, assembler, chunks, None)) == match c.promote(Start(Flatten(chunks)))
                                                                 case Some(events) => Items(events)
                                                                 case None => [Err(c.emptyStream(Start(Flatten(chunks))))]
  {
    assert [] + Flatten(chunks) == Flatten(chunks);
    FramelessTextRest(c, Opened(decoder, assembler, chunks, None), []);
  }

  /** What starts as JSON: white space, then a brace or a bracket. */
  lemma {:induction false} JsonStarts(bytes: Bytes)
    ensures JsonPrefix(bytes) <==> exists n | 0 <= n < |bytes| ::
              (bytes[n] == 123 || bytes[n] == 91) && forall i | 0 <= i < n :: IsAsciiWhite(bytes[i])
  {
    if bytes != [] {
      var rest := bytes[1..];
      JsonStarts(rest);
      if IsAsciiWhite(bytes[0]) {
        if n :| 0 <= n < |rest| && (rest[n] == 123 || rest[n] == 91) && forall i | 0 <= i < n :: IsAsciiWhite(rest[i]) {
          assert bytes[n + 1] == rest[n];
          assert forall i | 0 <= i < n + 1 :: i == 0 || bytes[i] == rest[i - 1];
        }
        if n :| 0 <= n < |bytes| && (bytes[n] == 123 || bytes[n] == 91) && forall i | 0 <= i < n :: IsAsciiWhite(bytes[i]) {
          assert bytes[n] == rest[n - 1];
          assert forall i | 0 <= i < n - 1 :: rest[i] == bytes[i + 1];
        }
      }
    }
  }
}
