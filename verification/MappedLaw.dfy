/** What a mapped stream sends, from the answers of decoder, assembler and encoder, written out as sequences. */
module MappedLaw {
  import opened Utf8
  import opened Sse
  import opened Text
  import opened Mapped

  // ---- traces ----

  /** The error a frame ends the stream with: a vendor error, or what the decoder cannot read. */
  function FrameError<D, A, N, V>(c: Mapper<D, A, N, V>, d: D, f: Frame): Option<string> {
    if c.wrapped(f.data).Some? then c.wrapped(f.data)
    else match c.decode(d, f).1
      case Err(e) => Some(c.shown(f, e))
      case Ok(_) => None
  }

  /** The decoder reads frames, with `states` before and after each, up to the first that is an error. */
  ghost predicate Decodes<D, A, N, V>(c: Mapper<D, A, N, V>, frames: seq<Frame>, states: seq<D>, events: seq<seq<V>>) {
    && |states| == |events| + 1 && |events| <= |frames|
    && (forall i | 0 <= i < |events| ::
          c.wrapped(frames[i].data).None? && c.decode(states[i], frames[i]) == (states[i + 1], Ok(events[i])))
    && (|events| < |frames| ==> FrameError(c, states[|events|], frames[|events|]).Some?)
  }

  /** The assembler takes all events. */
  ghost predicate Assembles<D, A, N, V>(c: Mapper<D, A, N, V>, events: seq<V>, states: seq<A>, outs: seq<seq<V>>) {
    && |states| == |events| + 1 && |outs| == |events|
    && forall i | 0 <= i < |events| :: c.assemble(states[i], events[i]) == (states[i + 1], outs[i])
  }

  /** The encoder takes events up to the first that it fails on. */
  ghost predicate Encodes<D, A, N, V>(c: Mapper<D, A, N, V>, events: seq<V>, states: seq<N>, codes: seq<seq<Frame>>) {
    && |states| == |codes| + 1 && |codes| <= |events|
    && (forall i | 0 <= i < |codes| :: c.encode(states[i], events[i]) == (states[i + 1], Ok(codes[i])))
    && (|codes| < |events| ==> c.encode(states[|codes|], events[|codes|]).1.Err?)
  }

  /** The events that the destination has a slot for. */
  function Slots<D, A, N, V>(c: Mapper<D, A, N, V>, events: seq<V>): seq<V> {
    if events == [] then []
    else
      var last := events[|events| - 1];
      Slots(c, events[..|events| - 1]) + if c.hasSlot(last) then [last] else []
  }

  predicate SeesTerminal<D, A, N, V>(c: Mapper<D, A, N, V>, frames: seq<Frame>) {
    exists i | 0 <= i < |frames| :: c.terminal(frames[i])
  }

  lemma {:induction false} DecodeTrace<D, A, N, V>(c: Mapper<D, A, N, V>, d: D, frames: seq<Frame>)
    returns (states: seq<D>, events: seq<seq<V>>)
    ensures Decodes(c, frames, states, events) && states[0] == d
    decreases |frames|
  {
    if frames == [] {
      states, events := [d], [];
    } else {
      var n := |frames| - 1;
      states, events := DecodeTrace(c, d, frames[..n]);
      if |events| == n && FrameError(c, states[n], frames[n]).None? {
        var (next, decoded) := c.decode(states[n], frames[n]);
        states, events := states + [next], events + [decoded.value];
      }
    }
  }

  lemma {:induction false} AssembleTrace<D, A, N, V>(c: Mapper<D, A, N, V>, a: A, events: seq<V>)
    returns (states: seq<A>, outs: seq<seq<V>>)
    ensures Assembles(c, events, states, outs) && states[0] == a
    decreases |events|
  {
    if events == [] {
      states, outs := [a], [];
    } else {
      var n := |events| - 1;
      states, outs := AssembleTrace(c, a, events[..n]);
      var (next, out) := c.assemble(states[n], events[n]);
      states, outs := states + [next], outs + [out];
    }
  }

  lemma {:induction false} EncodeTrace<D, A, N, V>(c: Mapper<D, A, N, V>, n: N, events: seq<V>)
    returns (states: seq<N>, codes: seq<seq<Frame>>)
    ensures Encodes(c, events, states, codes) && states[0] == n
    decreases |events|
  {
    if events == [] {
      states, codes := [n], [];
    } else {
      var k := |events| - 1;
      states, codes := EncodeTrace(c, n, events[..k]);
      if |codes| == k {
        var (next, encoded) := c.encode(states[k], events[k]);
        if encoded.Ok? {
          states, codes := states + [next], codes + [encoded.value];
        }
      }
    }
  }

  // ---- the steps of the stream, from the traces ----

  function EncodeError<D, A, N, V>(c: Mapper<D, A, N, V>, events: seq<V>, states: seq<N>, codes: seq<seq<Frame>>): Option<string>
    requires |states| == |codes| + 1
  {
    if |codes| < |events| && c.encode(states[|codes|], events[|codes|]).1.Err?
    then Some("encode stream: " + c.encode(states[|codes|], events[|codes|]).1.error) else None
  }

  lemma {:induction false} EncodesFront<D, A, N, V>(c: Mapper<D, A, N, V>, front: seq<V>, last: V, states: seq<N>, codes: seq<seq<Frame>>)
    requires Encodes(c, front + [last], states, codes) && |codes| == |front| + 1
    ensures var k := |front|;
            && Encodes(c, front, states[..k + 1], codes[..k]) && c.encode(states[k], last) == (states[k + 1], Ok(codes[k]))
            && Concat(codes) == Concat(codes[..k]) + codes[k]
  {
    var k, slots := |front|, front + [last];
    forall i | 0 <= i < k ensures c.encode(states[..k + 1][i], front[i]) == (states[..k + 1][i + 1], Ok(codes[..k][i])) {
      assert slots[i] == front[i];
    }
    assert c.encode(states[k], slots[k]) == (states[k + 1], Ok(codes[k]));
  }

  lemma {:induction false} EncodeTraced<D, A, N, V>(c: Mapper<D, A, N, V>, m: Mapping<D, A, N>, events: seq<V>,
                                                    states: seq<N>, codes: seq<seq<Frame>>)
    requires m.stop.None? && Encodes(c, Slots(c, events), states, codes) && states[0] == m.encoder
    ensures var q := EncodeAll(c, m, events);
            && q.out == m.out + Concat(codes) && q.stop == EncodeError(c, Slots(c, events), states, codes)
            && (q.stop.None? ==> q.encoder == states[|codes|])
    decreases |events|
  {
    if events == [] {
      assert m.out + [] == m.out;
    } else {
      var n := |events| - 1;
      var front, slots := Slots(c, events[..n]), Slots(c, events);
      if !c.hasSlot(events[n]) {
        assert slots == front;
        EncodeTraced(c, m, events[..n], states, codes);
      } else if |codes| < |slots| {
        forall i | 0 <= i < |codes| ensures c.encode(states[i], front[i]) == (states[i + 1], Ok(codes[i])) {
          assert slots[i] == front[i];
        }
        EncodeTraced(c, m, events[..n], states, codes);
      } else {
        EncodesFront(c, front, events[n], states, codes);
        EncodeTraced(c, m, events[..n], states[..|front| + 1], codes[..|front|]);
        ConcatAssoc(m.out, Concat(codes[..|front|]), codes[|front|]);
      }
    }
  }

  lemma {:induction false} EncodeKeepsRest<D, A, N, V>(c: Mapper<D, A, N, V>, m: Mapping<D, A, N>, events: seq<V>)
    ensures var q := EncodeAll(c, m, events);
            q == m.(encoder := q.encoder, out := q.out, stop := q.stop)
    decreases |events|
  {
    if events != [] {
      EncodeKeepsRest(c, m, events[..|events| - 1]);
    }
  }

  lemma {:induction false} EncodeElsewhere<D, A, N, V>(c: Mapper<D, A, N, V>, m: Mapping<D, A, N>, a: Mapping<D, A, N>, events: seq<V>)
    requires a == m.(decoder := a.decoder, assembler := a.assembler, sawFrame := a.sawFrame, sawTerminal := a.sawTerminal)
    ensures var p, q := EncodeAll(c, m, events), EncodeAll(c, a, events);
            p.encoder == q.encoder && p.out == q.out && p.stop == q.stop
    decreases |events|
  {
    if events != [] {
      EncodeElsewhere(c, m, a, events[..|events| - 1]);
    }
  }

  /** The frames, the encoder and the error of `q` are those of `m` once `events` are encoded. */
  ghost predicate HasEncoded<D, A, N, V>(c: Mapper<D, A, N, V>, m: Mapping<D, A, N>, events: seq<V>, q: Mapping<D, A, N>) {
    var p := EncodeAll(c, m, events);
    p.encoder == q.encoder && p.out == q.out && p.stop == q.stop
  }

  lemma {:induction false} EncodedMore<D, A, N, V>(c: Mapper<D, A, N, V>, m: Mapping<D, A, N>, a: seq<V>, b: seq<V>,
                                                   mid: Mapping<D, A, N>, q: Mapping<D, A, N>)
    requires HasEncoded(c, m, a, mid) && HasEncoded(c, mid, b, q)
    ensures HasEncoded(c, m, a + b, q)
  {
    var e := EncodeAll(c, m, a);
    EncodeConcat(c, m, a, b);
    EncodeElsewhere(c, e, mid, b);
  }

  lemma {:induction false} EncodedStays<D, A, N, V>(c: Mapper<D, A, N, V>, m: Mapping<D, A, N>, a: seq<V>, b: seq<V>, q: Mapping<D, A, N>)
    requires HasEncoded(c, m, a, q) && q.stop.Some?
    ensures HasEncoded(c, m, a + b, q)
  {
    EncodeStopped(c, q, b);
    EncodedMore(c, m, a, b, q, q);
  }

  /** Assembling and encoding in turn is encoding what the assembler gives. */
  lemma {:induction false} AssembleIsEncode<D, A, N, V>(c: Mapper<D, A, N, V>, m: Mapping<D, A, N>, decoded: seq<V>,
                                                        states: seq<A>, outs: seq<seq<V>>)
    requires m.stop.None? && Assembles(c, decoded, states, outs) && states[0] == m.assembler
    ensures var q := AssembleAll(c, m, decoded);
            && HasEncoded(c, m, Concat(outs), q)
            && q.decoder == m.decoder && q.sawTerminal == m.sawTerminal
            && (q.stop.None? ==> q.assembler == states[|decoded|])
    decreases |decoded|
  {
    if decoded != [] {
      var n := |decoded| - 1;
      var mid := AssembleAll(c, m, decoded[..n]);
      AssembleIsEncode(c, m, decoded[..n], states[..n + 1], outs[..n]);
      assert c.assemble(states[n], decoded[n]) == (states[n + 1], outs[n]);
      if mid.stop.Some? {
        EncodedStays(c, m, Concat(outs[..n]), outs[n], mid);
      } else {
        var next := mid.(assembler := states[n + 1]);
        EncodeKeepsRest(c, next, outs[n]);
        EncodedMore(c, m, Concat(outs[..n]), outs[n], next, EncodeAll(c, next, outs[n]));
      }
    }
  }

  lemma {:induction false} AssembledParts<D, A, N, V>(c: Mapper<D, A, N, V>, a: seq<V>, b: seq<V>, states: seq<A>, outs: seq<seq<V>>)
    requires Assembles(c, a + b, states, outs)
    ensures Assembles(c, a, states[..|a| + 1], outs[..|a|]) && Assembles(c, b, states[|a|..], outs[|a|..])
    ensures Concat(outs) == Concat(outs[..|a|]) + Concat(outs[|a|..])
  {
    var all := a + b;
    forall i | 0 <= i < |a| ensures c.assemble(states[i], a[i]) == (states[i + 1], outs[i]) {
      assert all[i] == a[i];
    }
    forall i | 0 <= i < |b| ensures c.assemble(states[|a|..][i], b[i]) == (states[|a|..][i + 1], outs[|a|..][i]) {
      assert all[|a| + i] == b[i];
    }
    assert outs[..|a|] + outs[|a|..] == outs;
    ConcatJoins(outs[..|a|], outs[|a|..]);
  }

  lemma SeesLast<D, A, N, V>(c: Mapper<D, A, N, V>, frames: seq<Frame>)
    requires frames != []
    ensures var n := |frames| - 1;
            SeesTerminal(c, frames) <==> SeesTerminal(c, frames[..n]) || c.terminal(frames[n])
  {
    var n := |frames| - 1;
    if SeesTerminal(c, frames) {
      var i :| 0 <= i < |frames| && c.terminal(frames[i]);
      assert i < n ==> c.terminal(frames[..n][i]);
    }
    if SeesTerminal(c, frames[..n]) {
      var i :| 0 <= i < n && c.terminal(frames[..n][i]);
      assert c.terminal(frames[i]);
    }
  }

  /** `q` is where a stream stands that began at `m` and whose frames, none of them an error, gave these traces. */
  ghost predicate StandsAt<D, A, N, V>(c: Mapper<D, A, N, V>, m: Mapping<D, A, N>, frames: seq<Frame>, d: D, a: A, events: seq<V>,
                                       q: Mapping<D, A, N>) {
    && HasEncoded(c, m, events, q)
    && (q.stop.None? ==> q.decoder == d && q.assembler == a && q.sawTerminal == (m.sawTerminal || SeesTerminal(c, frames)))
  }

  lemma {:induction false} NextDecoded<D, A, N, V>(c: Mapper<D, A, N, V>, frames: seq<Frame>, ds: seq<D>, events: seq<seq<V>>)
    requires frames != [] && |events| == |frames| && Decodes(c, frames, ds, events)
    ensures var n := |frames| - 1;
            && Decodes(c, frames[..n], ds[..n + 1], events[..n]) && Concat(events) == Concat(events[..n]) + events[n]
            && c.wrapped(frames[n].data).None? && c.decode(ds[n], frames[n]) == (ds[n + 1], Ok(events[n]))
  {
    var n := |frames| - 1;
    assert c.decode(ds[n], frames[n]) == (ds[n + 1], Ok(events[n]));
  }

  lemma {:induction false} MapIsEncode<D, A, N, V>(c: Mapper<D, A, N, V>, m: Mapping<D, A, N>, frames: seq<Frame>, ds: seq<D>,
                                                   events: seq<seq<V>>, states: seq<A>, outs: seq<seq<V>>)
    requires m.stop.None? && |events| == |frames| && Decodes(c, frames, ds, events) && ds[0] == m.decoder
    requires Assembles(c, Concat(events), states, outs) && states[0] == m.assembler
    ensures StandsAt(c, m, frames, ds[|frames|], states[|Concat(events)|], Concat(outs), MapAll(c, m, frames))
    decreases |frames|
  {
    if frames != [] {
      var n := |frames| - 1;
      var before := Concat(events[..n]);
      NextDecoded(c, frames, ds, events);
      SeesLast(c, frames);
      AssembledParts(c, before, events[n], states, outs);
      var k := |before|;
      MapIsEncode(c, m, frames[..n], ds[..n + 1], events[..n], states[..k + 1], outs[..k]);
      MapsOneMore(c, m, frames, ds, events[n], states, k, outs);
    }
  }

  lemma {:induction false} MapsOneMore<D, A, N, V>(c: Mapper<D, A, N, V>, m: Mapping<D, A, N>, frames: seq<Frame>, ds: seq<D>,
                                                   decoded: seq<V>, states: seq<A>, k: nat, outs: seq<seq<V>>)
    requires frames != [] && |ds| == |frames| + 1 && k <= |outs| && |states| == |outs| + 1
    requires var n := |frames| - 1;
             && c.wrapped(frames[n].data).None? && c.decode(ds[n], frames[n]) == (ds[n + 1], Ok(decoded))
             && StandsAt(c, m, frames[..n], ds[n], states[k], Concat(outs[..k]), MapAll(c, m, frames[..n]))
    requires Assembles(c, decoded, states[k..], outs[k..]) && Concat(outs) == Concat(outs[..k]) + Concat(outs[k..])
    requires SeesTerminal(c, frames) <==> SeesTerminal(c, frames[..|frames| - 1]) || c.terminal(frames[|frames| - 1])
    ensures StandsAt(c, m, frames, ds[|frames|], states[|states| - 1], Concat(outs), MapAll(c, m, frames))
  {
    hide SeesTerminal, HasEncoded, EncodeAll, AssembleAll, Concat;
    var n := |frames| - 1;
    var mid := MapAll(c, m, frames[..n]);
    if mid.stop.Some? {
      EncodedStays(c, m, Concat(outs[..k]), Concat(outs[k..]), mid);
    } else {
      var next := mid.(sawFrame := true, sawTerminal := mid.sawTerminal || c.terminal(frames[n]), decoder := ds[n + 1]);
      AssembleIsEncode(c, next, decoded, states[k..], outs[k..]);
      EncodedMoved(c, mid, next, Concat(outs[k..]), MapAll(c, m, frames));
      EncodedMore(c, m, Concat(outs[..k]), Concat(outs[k..]), mid, MapAll(c, m, frames));
    }
  }

  lemma {:induction false} EncodedMoved<D, A, N, V>(c: Mapper<D, A, N, V>, m: Mapping<D, A, N>, next: Mapping<D, A, N>,
                                                    events: seq<V>, q: Mapping<D, A, N>)
    requires next == m.(decoder := next.decoder, sawFrame := next.sawFrame, sawTerminal := next.sawTerminal)
    requires HasEncoded(c, next, events, q)
    ensures HasEncoded(c, m, events, q)
  {
    EncodeElsewhere(c, m, next, events);
  }

  /** The first error in the order of processing: the encoder's on what is decoded, or else the frame's. */
  function FirstError<D, A, N, V>(c: Mapper<D, A, N, V>, frames: seq<Frame>, ds: seq<D>, events: seq<seq<V>>,
                                  slots: seq<V>, encoders: seq<N>, codes: seq<seq<Frame>>): Option<string>
    requires |ds| == |events| + 1 && |encoders| == |codes| + 1
  {
    if EncodeError(c, slots, encoders, codes).Some? then EncodeError(c, slots, encoders, codes)
    else if |events| < |frames| then FrameError(c, ds[|events|], frames[|events|])
    else None
  }

  lemma {:induction false} StopsAtFrame<D, A, N, V>(c: Mapper<D, A, N, V>, m: Mapping<D, A, N>, frames: seq<Frame>, k: nat)
    requires k < |frames| && (MapAll(c, m, frames[..k]).stop.None? ==> FrameError(c, MapAll(c, m, frames[..k]).decoder, frames[k]).Some?)
    ensures var mid, all := MapAll(c, m, frames[..k]), MapAll(c, m, frames);
            && all.out == mid.out
            && all.stop == if mid.stop.Some? then mid.stop else FrameError(c, mid.decoder, frames[k])
  {
    var one := frames[..k + 1];
    assert one[..k] == frames[..k] && one[k] == frames[k];
    assert frames == one + frames[k + 1..];
    MapConcat(c, m, one, frames[k + 1..]);
  }

  lemma {:induction false} MapTraced<D, A, N, V>(c: Mapper<D, A, N, V>, m: Mapping<D, A, N>, frames: seq<Frame>, ds: seq<D>,
                                                 events: seq<seq<V>>, states: seq<A>, outs: seq<seq<V>>,
                                                 encoders: seq<N>, codes: seq<seq<Frame>>)
    requires m.stop.None? && m.out == [] && !m.sawTerminal && Decodes(c, frames, ds, events) && ds[0] == m.decoder
    requires Assembles(c, Concat(events), states, outs) && states[0] == m.assembler
    requires Encodes(c, Slots(c, Concat(outs)), encoders, codes) && encoders[0] == m.encoder
    ensures var q := MapAll(c, m, frames);
            && q.out == Concat(codes)
            && q.stop == FirstError(c, frames, ds, events, Slots(c, Concat(outs)), encoders, codes)
            && (q.stop.None? ==> q.assembler == states[|states| - 1] && q.encoder == encoders[|codes|]
                                 && q.sawTerminal == SeesTerminal(c, frames))
  {
    hide SeesTerminal, MapAll, EncodeAll, Concat, Slots, FrameError, EncodeError, Encodes, Assembles;
    var k := |events|;
    assert |states| == |Concat(events)| + 1 && [] + Concat(codes) == Concat(codes) by {
      AssembledLength(c, Concat(events), states, outs);
    }
    assert Decodes(c, frames[..k], ds, events);
    MapIsEncode(c, m, frames[..k], ds, events, states, outs);
    EncodeTraced(c, m, Concat(outs), encoders, codes);
    if k < |frames| {
      StopsAtFrame(c, m, frames, k);
    } else {
      assert frames[..k] == frames;
    }
  }

  lemma AssembledLength<D, A, N, V>(c: Mapper<D, A, N, V>, events: seq<V>, states: seq<A>, outs: seq<seq<V>>)
    requires Assembles(c, events, states, outs)
    ensures |states| == |events| + 1
  {
  }

  // ---- what is sent ----

  function Printed<D, A, N, V>(c: Mapper<D, A, N, V>, frames: seq<Frame>): seq<Bytes> {
    seq(|frames|, i requires 0 <= i < |frames| => c.frameBytes(frames[i]))
  }

  lemma {:induction false} SendsPrinted<D, A, N, V>(c: Mapper<D, A, N, V>, frames: seq<Frame>)
    ensures SendAll(c, frames) == Printed(c, frames)
    decreases |frames|
  {
    if frames != [] {
      SendsPrinted(c, frames[..|frames| - 1]);
    }
  }

  /** What comes behind the encoded frames of a body without an error: the assembler's tail, then the closing frames. */
  function Closed<D, A, N, V>(c: Mapper<D, A, N, V>, frames: seq<Frame>, tail: seq<V>, encoders: seq<N>, codes: seq<seq<Frame>>): seq<Bytes>
    requires |encoders| == |codes| + 1
  {
    if EncodeError(c, tail, encoders, codes).Some? then [c.errorBytes(EncodeError(c, tail, encoders, codes).value)]
    else
      Printed(c, Concat(codes))
      + if !SeesTerminal(c, frames) then [c.errorBytes(INCOMPLETE)]
        else match c.finish(encoders[|codes|])
          case Ok(closing) => Printed(c, closing)
          case Err(e) => [c.errorBytes("encode stream: " + e)]
  }

  lemma {:induction false} ClosingTraced<D, A, N, V>(c: Mapper<D, A, N, V>, m: Mapping<D, A, N>, frames: seq<Frame>,
                                                     encoders: seq<N>, codes: seq<seq<Frame>>)
    requires m.stop.None? && Encodes(c, Slots(c, c.flush(m.assembler).1), encoders, codes) && encoders[0] == m.encoder
    requires m.sawTerminal == SeesTerminal(c, frames)
    ensures Closing(c, m) == Closed(c, frames, Slots(c, c.flush(m.assembler).1), encoders, codes)
  {
    assert |encoders| == |codes| + 1;
    hide SeesTerminal, EncodeAll, Concat, Slots, EncodeError, Encodes, SendAll, Printed;
    var (a, events) := c.flush(m.assembler);
    var bare := m.(assembler := a, out := []);
    EncodeTraced(c, bare, events, encoders, codes);
    EncodeKeepsRest(c, bare, events);
    assert [] + Concat(codes) == Concat(codes);
    SendsPrinted(c, Concat(codes));
    if c.finish(encoders[|codes|]).Ok? {
      SendsPrinted(c, c.finish(encoders[|codes|]).value);
    }
  }

  /** What is sent by a stream whose frames have led to `all`. */
  function Remaining<D, A, N, V>(c: Mapper<D, A, N, V>, body: Bytes, end: Option<string>, all: Mapping<D, A, N>): seq<Bytes> {
    SendAll(c, all.out)
    + if all.stop.Some? then [c.errorBytes(all.stop.value)]
      else if end.Some? then [c.errorBytes(end.value)]
      else match EndOfBody(Scan(FRESH, body).reader).1
        case Err(e) => [c.errorBytes(c.readErrorText(e))]
        case Ok(_) => Closing(c, all.(out := []))
  }

  lemma {:induction false} WholeRemaining<D, A, N, V>(c: Mapper<D, A, N, V>, m: Mapping<D, A, N>, body: Bytes, end: Option<string>)
    requires m.stop.None? && m.out == []
    ensures SentWhole(c, FRESH, m, body, end) == Remaining(c, body, end, MapAll(c, m, FramesOf(body, end)))
  {
    hide Scan, EndOfBody, MapAll, MapOne, SendAll, Closing;
    var frames := Scan(FRESH, body).frames;
    var all := MapAll(c, m, frames);
    if end.None? && EndOfBody(Scan(FRESH, body).reader).1.Ok? && EndOfBody(Scan(FRESH, body).reader).1.value.Some? {
      var f := EndOfBody(Scan(FRESH, body).reader).1.value.value;
      MapConcat(c, m, frames, [f]);
      if all.stop.None? {
        OneFrame(c, all.(out := []), f);
        SentJoin(c, all, [f], FRESH, end);
        var bare := MapOne(c, all.(out := []), f);
        ConcatAssoc(SendAll(c, all.out), SendAll(c, bare.out),
                    if bare.stop.Some? then [c.errorBytes(bare.stop.value)] else Closing(c, bare.(out := [])));
      }
    }
  }

  /** The answers of the parts: decoder states and events, assembler states and events, encoder states and frames. */
  datatype Answers<D, A, N, V> = Answers(
    ds: seq<D>, events: seq<seq<V>>, states: seq<A>, outs: seq<seq<V>>, encoders: seq<N>, codes: seq<seq<Frame>>)
  {
    ghost predicate Trace(c: Mapper<D, A, N, V>, frames: seq<Frame>, start: Mapping<D, A, N>) {
      && Decodes(c, frames, ds, events) && ds[0] == start.decoder
      && Assembles(c, Concat(events), states, outs) && states[0] == start.assembler
      && Encodes(c, Slots(c, Concat(outs)), encoders, codes) && encoders[0] == start.encoder
    }
  }

  /**
   What every mapped stream sends for a body within the limits: in order, the frames that the encoder gives for the
   assembled events with a slot; then the first error, or the transport's, or the reader's, or the frames of the
   assembler's tail and the closing ones of the encoder. An error in the tail stands alone; without a terminal frame there
   are no closing frames.
   */
  lemma {:induction false} SendsAnswers<D, A, N, V>(c: Mapper<D, A, N, V>, decoder: D, assembler: A, encoder: N,
                                                    chunks: seq<Bytes>, end: Option<string>)
    returns (t: Answers<D, A, N, V>, encoders: seq<N>, codes: seq<seq<Frame>>)
    requires Break(FRESH, Flatten(chunks)).None?
    ensures var start, frames := Mapping(decoder, assembler, encoder, false, false, [], None), FramesOf(Flatten(chunks), end);
            && t.Trace(c, frames, start)
            && var tail, slots := Slots(c, c.flush(t.states[|t.states| - 1]).1), Slots(c, Concat(t.outs));
               && Encodes(c, tail, encoders, codes) && encoders[0] == t.encoders[|t.codes|]
               && Sent(c, FRESH, start, chunks, end)
                  == Printed(c, Concat(t.codes))
                     + match FirstError(c, frames, t.ds, t.events, slots, t.encoders, t.codes)
                       case Some(error) => [c.errorBytes(error)]
                       case None =>
                         if end.Some? then [c.errorBytes(end.value)]
                         else match EndOfBody(Scan(FRESH, Flatten(chunks)).reader).1
                           case Err(e) => [c.errorBytes(c.readErrorText(e))]
                           case Ok(_) => Closed(c, frames, tail, encoders, codes)
  {
    hide Scan, Break, EndOfBody, MapAll, SendAll, Closing, Concat, Slots, SeesTerminal, FirstError, Closed, Sent, SentWhole;
    var body, start := Flatten(chunks), Mapping(decoder, assembler, encoder, false, false, [], None);
    var frames := FramesOf(body, end);
    var ds, events := DecodeTrace(c, decoder, frames);
    var states, outs := AssembleTrace(c, assembler, Concat(events));
    var ns, frameCodes := EncodeTrace(c, encoder, Slots(c, Concat(outs)));
    t := Answers(ds, events, states, outs, ns, frameCodes);
    encoders, codes := EncodeTrace(c, ns[|frameCodes|], Slots(c, c.flush(states[|states| - 1]).1));
    SentDependsOnBytes(c, FRESH, start, chunks, end);
    WholeRemaining(c, start, body, end);
    MapTraced(c, start, frames, ds, events, states, outs, ns, frameCodes);
    var all := MapAll(c, start, frames);
    SendsPrinted(c, all.out);
    if all.stop.None? {
      ClosingTraced(c, all.(out := []), frames, encoders, codes);
    }
  }
}
