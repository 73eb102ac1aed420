/**
 The mapped stream: frames of one wire decoded, assembled, and encoded as frames of another.

 `Mapping` is the fold of the step functions over frames; `MappedStream` and `MapStream` are the
 object and its driver, proved against it. Decoder, assembler and encoder are arbitrary.
 */
module Mapped {
  import opened Utf8
  import opened Sse

  /** The step functions of other modules: D decoder, A assembler, N encoder, V event. */
  datatype Mapper<!D, !A, !N, !V> = Mapper(
    terminal: Frame -> bool,
    wrapped: Bytes -> Option<string>,
    decode: (D, Frame) -> (D, Result<seq<V>, string>),
    shown: (Frame, string) -> string,
    assemble: (A, V) -> (A, seq<V>),
    flush: A -> (A, seq<V>),
    hasSlot: V -> bool,
    encode: (N, V) -> (N, Result<seq<Frame>, string>),
    finish: N -> Result<seq<Frame>, string>,
    frameBytes: Frame -> Bytes,
    errorBytes: string -> Bytes,
    readErrorText: ReadError -> string)

  datatype Mapping<D, A, N> = Mapping(
    decoder: D, assembler: A, encoder: N, sawFrame: bool, sawTerminal: bool, out: seq<Frame>, stop: Option<string>)

  function EncodeOne<D, A, N, V>(c: Mapper<D, A, N, V>, m: Mapping<D, A, N>, event: V): Mapping<D, A, N> {
    if m.stop.Some? || !c.hasSlot(event) then m
    else
      var (encoder, encoded) := c.encode(m.encoder, event);
      match encoded
      case Ok(frames) => m.(encoder := encoder, out := m.out + frames)
      case Err(e) => m.(encoder := encoder, stop := Some("encode stream: " + e))
  }

  function EncodeAll<D, A, N, V>(c: Mapper<D, A, N, V>, m: Mapping<D, A, N>, events: seq<V>): Mapping<D, A, N> {
    if events == [] then m
    else EncodeOne(c, EncodeAll(c, m, events[..|events| - 1]), events[|events| - 1])
  }

  /** Events are assembled only as they are asked for: none after an encoder error. */
  function AssembleAll<D, A, N, V>(c: Mapper<D, A, N, V>, m: Mapping<D, A, N>, decoded: seq<V>): Mapping<D, A, N> {
    if decoded == [] then m
    else
      var m1 := AssembleAll(c, m, decoded[..|decoded| - 1]);
      if m1.stop.Some? then m1
      else
        var (assembler, events) := c.assemble(m1.assembler, decoded[|decoded| - 1]);
        EncodeAll(c, m1.(assembler := assembler), events)
  }

  function MapOne<D, A, N, V>(c: Mapper<D, A, N, V>, m: Mapping<D, A, N>, f: Frame): Mapping<D, A, N> {
    var m1 := m.(sawFrame := true, sawTerminal := m.sawTerminal || c.terminal(f));
    if m.stop.Some? then m
    else if c.wrapped(f.data).Some? then m1.(stop := c.wrapped(f.data))
    else
      var (decoder, decoded) := c.decode(m.decoder, f);
      match decoded
      case Err(e) => m1.(decoder := decoder, stop := Some(c.shown(f, e)))
      case Ok(events) => AssembleAll(c, m1.(decoder := decoder), events)
  }

  /** Frames in turn; the first error cuts off the rest. */
  function MapAll<D, A, N, V>(c: Mapper<D, A, N, V>, m: Mapping<D, A, N>, frames: seq<Frame>): Mapping<D, A, N> {
    if frames == [] then m
    else MapOne(c, MapAll(c, m, frames[..|frames| - 1]), frames[|frames| - 1])
  }

  lemma {:induction false} EncodeStopped<D, A, N, V>(c: Mapper<D, A, N, V>, m: Mapping<D, A, N>, events: seq<V>)
    requires m.stop.Some?
    ensures EncodeAll(c, m, events) == m
    decreases |events|
  {
    if events != [] {
      EncodeStopped(c, m, events[..|events| - 1]);
    }
  }

  lemma {:induction false} EncodeConcat<D, A, N, V>(c: Mapper<D, A, N, V>, m: Mapping<D, A, N>, a: seq<V>, b: seq<V>)
    ensures EncodeAll(c, m, a + b) == EncodeAll(c, EncodeAll(c, m, a), b)
    decreases |b|
  {
    if b == [] {
      assert a + b == a;
    } else {
      var n := |b| - 1;
      assert (a + b)[..|a + b| - 1] == a + b[..n];
      EncodeConcat(c, m, a, b[..n]);
    }
  }

  lemma {:induction false} AssembleCut<D, A, N, V>(c: Mapper<D, A, N, V>, m: Mapping<D, A, N>, decoded: seq<V>, n: nat)
    requires n <= |decoded| && AssembleAll(c, m, decoded[..n]).stop.Some?
    ensures AssembleAll(c, m, decoded) == AssembleAll(c, m, decoded[..n])
    decreases |decoded|
  {
    if n == |decoded| {
      assert decoded[..n] == decoded;
    } else {
      var k := |decoded| - 1;
      assert decoded[..k][..n] == decoded[..n];
      AssembleCut(c, m, decoded[..k], n);
    }
  }

  lemma {:induction false} MapStopped<D, A, N, V>(c: Mapper<D, A, N, V>, m: Mapping<D, A, N>, frames: seq<Frame>)
    requires m.stop.Some?
    ensures MapAll(c, m, frames) == m
    decreases |frames|
  {
    if frames != [] {
      MapStopped(c, m, frames[..|frames| - 1]);
    }
  }

  /** Pushing `a` and then `b` is pushing both at once, the first error cutting off the rest. */
  lemma {:induction false} MapConcat<D, A, N, V>(c: Mapper<D, A, N, V>, m: Mapping<D, A, N>, a: seq<Frame>, b: seq<Frame>)
    ensures MapAll(c, m, a + b) == MapAll(c, MapAll(c, m, a), b)
    ensures MapAll(c, m, a).stop.Some? ==> MapAll(c, m, a + b) == MapAll(c, m, a)
    decreases |b|
  {
    if b == [] {
      assert a + b == a;
    } else {
      var n := |b| - 1;
      assert (a + b)[..|a + b| - 1] == a + b[..n];
      MapConcat(c, m, a, b[..n]);
    }
  }

  // ---- the object ----

  class MappedStream<D, A, N, V> {
    const c: Mapper<D, A, N, V>
    var decoder: D
    var assembler: A
    var encoder: N
    var sawFrame: bool
    var sawTerminal: bool

    ghost function Before(out: seq<Frame>): Mapping<D, A, N>
      reads this
    {
      After(out, None)
    }

    ghost function After(out: seq<Frame>, stop: Option<string>): Mapping<D, A, N>
      reads this
    {
      Mapping(decoder, assembler, encoder, sawFrame, sawTerminal, out, stop)
    }

    constructor (c: Mapper<D, A, N, V>, decoder: D, assembler: A, encoder: N)
      ensures this.c == c && Before([]) == Mapping(decoder, assembler, encoder, false, false, [], None)
    {
      this.c, this.decoder, this.assembler, this.encoder := c, decoder, assembler, encoder;
      sawFrame, sawTerminal := false, false;
    }

    /** Encodes events onto `sofar` until the encoder fails. */
    method EncodeEvents(sofar: seq<Frame>, events: seq<V>) returns (out: seq<Frame>, stop: Option<string>)
      modifies this`encoder
      ensures After(out, stop) == EncodeAll(c, old(Before(sofar)), events)
    {
      out := sofar;
      for i := 0 to |events|
        invariant Before(out) == EncodeAll(c, old(Before(sofar)), events[..i])
      {
        assert events[..i + 1][..i] == events[..i];
        if c.hasSlot(events[i]) {
          var (n, encoded) := c.encode(encoder, events[i]);
          encoder := n;
          if encoded.Err? {
            stop := Some("encode stream: " + encoded.error);
            assert events == events[..i + 1] + events[i + 1..];
            EncodeConcat(c, old(Before(sofar)), events[..i + 1], events[i + 1..]);
            EncodeStopped(c, After(out, stop), events[i + 1..]);
            return;
          }
          out := out + encoded.value;
        }
      }
      assert events[..|events|] == events;
      return out, None;
    }

    /** Assembles each decoded event and encodes what it completes. */
    method AssembleEvents(sofar: seq<Frame>, decoded: seq<V>) returns (out: seq<Frame>, stop: Option<string>)
      modifies this`assembler, this`encoder
      ensures After(out, stop) == AssembleAll(c, old(Before(sofar)), decoded)
    {
      out := sofar;
      for i := 0 to |decoded|
        invariant Before(out) == AssembleAll(c, old(Before(sofar)), decoded[..i])
      {
        assert decoded[..i + 1][..i] == decoded[..i];
        var (a, events) := c.assemble(assembler, decoded[i]);
        assembler := a;
        out, stop := EncodeEvents(out, events);
        if stop.Some? {
          AssembleCut(c, old(Before(sofar)), decoded, i + 1);
          return;
        }
      }
      assert decoded[..|decoded|] == decoded;
      return out, None;
    }

    method PushFrame(sofar: seq<Frame>, f: Frame) returns (out: seq<Frame>, stop: Option<string>)
      modifies this
      ensures After(out, stop) == MapOne(c, old(Before(sofar)), f)
    {
      sawFrame := true;
      if c.terminal(f) {
        sawTerminal := true;
      }
      var refused := c.wrapped(f.data);
      if refused.Some? {
        return sofar, refused;
      }
      var (d, decoded) := c.decode(decoder, f);
      decoder := d;
      if decoded.Err? {
        return sofar, Some(c.shown(f, decoded.error));
      }
      out, stop := AssembleEvents(sofar, decoded.value);
    }

    /** `PushFrames` is `MapAll` from an empty output. */
    method PushFrames(frames: seq<Frame>) returns (out: seq<Frame>, stop: Option<string>)
      modifies this
      ensures After(out, stop) == MapAll(c, old(Before([])), frames)
    {
      out := [];
      for i := 0 to |frames|
        invariant Before(out) == MapAll(c, old(Before([])), frames[..i])
      {
        assert frames[..i + 1][..i] == frames[..i];
        out, stop := PushFrame(out, frames[i]);
        if stop.Some? {
          assert frames == frames[..i + 1] + frames[i + 1..];
          MapConcat(c, old(Before([])), frames[..i + 1], frames[i + 1..]);
          return;
        }
      }
      assert frames[..|frames|] == frames;
      return out, None;
    }

    /** The events still in the assembler. An encoder error drops what was encoded of them. */
    method TakeAssemblerTail() returns (r: Result<seq<Frame>, string>)
      modifies this`assembler, this`encoder
      ensures var m := TailOf(c, old(Before([])));
              match m.stop
              case None => r == Ok(m.out) && Before(m.out) == m
              case Some(e) => r == Err(e)
    {
      var (a, events) := c.flush(assembler);
      assembler := a;
      var out, stop := EncodeEvents([], events);
      return if stop.Some? then Err(stop.value) else Ok(out);
    }

    /** Closing frames, only after a terminal frame. */
    method FinishEncoder() returns (r: Result<seq<Frame>, string>)
      ensures r == ClosingOf(c, Before([]))
      ensures r.Ok? ==> sawTerminal
    {
      if !sawTerminal {
        return Err(INCOMPLETE);
      }
      var closing := c.finish(encoder);
      return if closing.Err? then Err("encode stream: " + closing.error) else closing;
    }
  }

  function TailOf<D, A, N, V>(c: Mapper<D, A, N, V>, m: Mapping<D, A, N>): Mapping<D, A, N> {
    var (a, events) := c.flush(m.assembler);
    EncodeAll(c, m.(assembler := a, out := []), events)
  }

  function ClosingOf<D, A, N, V>(c: Mapper<D, A, N, V>, m: Mapping<D, A, N>): Result<seq<Frame>, string> {
    if !m.sawTerminal then Err(INCOMPLETE)
    else match c.finish(m.encoder)
      case Ok(frames) => Ok(frames)
      case Err(e) => Err("encode stream: " + e)
  }

  // ---- the driver ----

  function SendAll<D, A, N, V>(c: Mapper<D, A, N, V>, frames: seq<Frame>): seq<Bytes> {
    if frames == [] then []
    else SendAll(c, frames[..|frames| - 1]) + [c.frameBytes(frames[|frames| - 1])]
  }

  function Sends<D, A, N, V>(c: Mapper<D, A, N, V>, r: Result<seq<Frame>, string>): seq<Bytes> {
    match r
    case Ok(frames) => SendAll(c, frames)
    case Err(e) => [c.errorBytes(e)]
  }

  /** What is sent once the body has ended and `m` holds no frame that was not sent. */
  function Closing<D, A, N, V>(c: Mapper<D, A, N, V>, m: Mapping<D, A, N>): seq<Bytes> {
    var tail := TailOf(c, m);
    match tail.stop
    case Some(e) => [c.errorBytes(e)]
    case None => SendAll(c, tail.out) + Sends(c, ClosingOf(c, tail))
  }

  /** What is sent from the end of the body on. */
  function Ending<D, A, N, V>(c: Mapper<D, A, N, V>, r: Reader, m: Mapping<D, A, N>, end: Option<string>): seq<Bytes> {
    if end.Some? then [c.errorBytes(end.value)]
    else match EndOfBody(r).1
      case Err(e) => [c.errorBytes(c.readErrorText(e))]
      case Ok(None) => Closing(c, m)
      case Ok(Some(f)) => LastSends(c, MapOne(c, m.(out := []), f))
  }

  /** What is sent for the frame that the end of the body closes, and after it. */
  function LastSends<D, A, N, V>(c: Mapper<D, A, N, V>, last: Mapping<D, A, N>): seq<Bytes> {
    SendAll(c, last.out) + if last.stop.Some? then [c.errorBytes(last.stop.value)] else Closing(c, last.(out := []))
  }

  /** Everything the driver sends for the chunks still to come. */
  function Sent<D, A, N, V>(c: Mapper<D, A, N, V>, r: Reader, m: Mapping<D, A, N>, chunks: seq<Bytes>, end: Option<string>): seq<Bytes>
    decreases |chunks|
  {
    if chunks == [] then Ending(c, r, m, end)
    else match Break(r, chunks[0])
      case Some(e) => [c.errorBytes(c.readErrorText(e))]
      case None =>
        var s := Scan(r, chunks[0]);
        var next := MapAll(c, m.(out := []), s.frames);
        SendAll(c, next.out)
        + if next.stop.Some? then [c.errorBytes(next.stop.value)] else Sent(c, s.reader, next.(out := []), chunks[1..], end)
  }

  method SendFrames<D, A, N, V>(c: Mapper<D, A, N, V>, frames: seq<Frame>) returns (sent: seq<Bytes>)
    ensures sent == SendAll(c, frames)
  {
    sent := [];
    for i := 0 to |frames|
      invariant sent == SendAll(c, frames[..i])
    {
      assert frames[..i + 1][..i] == frames[..i];
      sent := sent + [c.frameBytes(frames[i])];
    }
    assert frames[..|frames|] == frames;
  }

  method CloseStream<D, A, N, V>(mapped: MappedStream<D, A, N, V>) returns (sent: seq<Bytes>)
    modifies mapped
    ensures sent == Closing(mapped.c, old(mapped.Before([])))
  {
    var c := mapped.c;
    var tail := mapped.TakeAssemblerTail();
    if tail.Err? {
      return [c.errorBytes(tail.error)];
    }
    sent := SendFrames(c, tail.value);
    var closing := mapped.FinishEncoder();
    if closing.Err? {
      return sent + [c.errorBytes(closing.error)];
    }
    var last := SendFrames(c, closing.value);
    return sent + last;
  }

  /** Frames pushed and sent; false when an error ended the stream. */
  method EmitMapped<D, A, N, V>(mapped: MappedStream<D, A, N, V>, frames: seq<Frame>) returns (sent: seq<Bytes>, live: bool)
    modifies mapped
    ensures var m := MapAll(mapped.c, old(mapped.Before([])), frames);
            && live == m.stop.None?
            && sent == SendAll(mapped.c, m.out) + (if m.stop.Some? then [mapped.c.errorBytes(m.stop.value)] else [])
            && mapped.Before([]) == m.(out := [], stop := None)
  {
    var out, stop := mapped.PushFrames(frames);
    sent := SendFrames(mapped.c, out);
    if stop.Some? {
      return sent + [mapped.c.errorBytes(stop.value)], false;
    }
    return sent, true;
  }

  method EmitLast<D, A, N, V>(mapped: MappedStream<D, A, N, V>, f: Frame) returns (sent: seq<Bytes>)
    modifies mapped
    ensures sent == LastSends(mapped.c, MapOne(mapped.c, old(mapped.Before([])), f))
  {
    OneFrame(mapped.c, mapped.Before([]), f);
    var live;
    sent, live := EmitMapped(mapped, [f]);
    if live {
      var closing := CloseStream(mapped);
      sent := sent + closing;
    }
  }

  lemma OneFrame<D, A, N, V>(c: Mapper<D, A, N, V>, m: Mapping<D, A, N>, f: Frame)
    ensures MapAll(c, m, [f]) == MapOne(c, m, f)
  {
  }

  method EndStream<D, A, N, V>(mapped: MappedStream<D, A, N, V>, reader: SseFrameReader, end: Option<string>) returns (sent: seq<Bytes>)
    requires reader.Valid()
    modifies mapped, reader
    ensures sent == Ending(mapped.c, old(reader.State()), old(mapped.Before([])), end)
  {
    if end.Some? {
      return [mapped.c.errorBytes(end.value)];
    }
    var last := reader.Finish();
    match last
    case Err(e) => return [mapped.c.errorBytes(mapped.c.readErrorText(e))];
    case Ok(None) => sent := CloseStream(mapped);
    case Ok(Some(f)) => sent := EmitLast(mapped, f);
  }

  lemma {:induction false} SentBroken<D, A, N, V>(c: Mapper<D, A, N, V>, r: Reader, m: Mapping<D, A, N>, chunk: Bytes, rest: seq<Bytes>,
                                                 end: Option<string>)
    requires Break(r, chunk).Some?
    ensures Sent(c, r, m, [chunk] + rest, end) == [c.errorBytes(c.readErrorText(Break(r, chunk).value))]
  {
  }

  lemma {:induction false} SentStep<D, A, N, V>(c: Mapper<D, A, N, V>, r: Reader, m: Mapping<D, A, N>, chunk: Bytes, rest: seq<Bytes>,
                                               end: Option<string>, next: Mapping<D, A, N>)
    requires m.out == [] && Break(r, chunk).None? && next == MapAll(c, m, Scan(r, chunk).frames)
    ensures Sent(c, r, m, [chunk] + rest, end)
         == SendAll(c, next.out) + if next.stop.Some? then [c.errorBytes(next.stop.value)]
                                   else Sent(c, Scan(r, chunk).reader, next.(out := []), rest, end)
  {
    var chunks := [chunk] + rest;
    assert chunks[0] == chunk && chunks[1..] == rest;
    assert m.(out := []) == m;
  }

  /** One read: what it sends, and whether the stream goes on. */
  method ReadAndEmit<D, A, N, V>(mapped: MappedStream<D, A, N, V>, reader: SseFrameReader, chunk: Bytes)
    returns (sent: seq<Bytes>, live: bool)
    requires reader.Valid()
    modifies mapped, reader
    ensures reader.Valid()
    ensures Break(old(reader.State()), chunk).Some? ==>
              !live && sent == [mapped.c.errorBytes(mapped.c.readErrorText(Break(old(reader.State()), chunk).value))]
    ensures Break(old(reader.State()), chunk).None? ==>
              var s := Scan(old(reader.State()), chunk);
              var next := MapAll(mapped.c, old(mapped.Before([])), s.frames);
              && reader.State() == s.reader && live == next.stop.None? && mapped.Before([]) == next.(out := [], stop := None)
              && sent == SendAll(mapped.c, next.out) + (if next.stop.Some? then [mapped.c.errorBytes(next.stop.value)] else [])
  {
    var fed := reader.Feed(chunk);
    if fed.Err? {
      return [mapped.c.errorBytes(mapped.c.readErrorText(fed.error))], false;
    }
    sent, live := EmitMapped(mapped, fed.value);
  }

  /** What the stream sends, from what one read sends. */
  lemma {:induction false} SentAfter<D, A, N, V>(c: Mapper<D, A, N, V>, r: Reader, m: Mapping<D, A, N>, chunk: Bytes, rest: seq<Bytes>,
                                                end: Option<string>, sent: seq<Bytes>, after: Reader, left: Mapping<D, A, N>)
    requires m.out == []
    requires Break(r, chunk).Some? ==> sent == [c.errorBytes(c.readErrorText(Break(r, chunk).value))]
    requires Break(r, chunk).None? ==>
               var s := Scan(r, chunk);
               var next := MapAll(c, m, s.frames);
               && after == s.reader && left == next.(out := [], stop := None)
               && sent == SendAll(c, next.out) + if next.stop.Some? then [c.errorBytes(next.stop.value)] else []
    ensures Sent(c, r, m, [chunk] + rest, end)
         == if Break(r, chunk).Some? || MapAll(c, m, Scan(r, chunk).frames).stop.Some? then sent
            else sent + Sent(c, after, left, rest, end)
  {
    hide *;
    if Break(r, chunk).Some? {
      SentBroken(c, r, m, chunk, rest, end);
    } else {
      var next := MapAll(c, m, Scan(r, chunk).frames);
      SentStep(c, r, m, chunk, rest, end, next);
      if next.stop.None? {
        assert next.(out := []) == left;
        assert SendAll(c, next.out) + [] == SendAll(c, next.out);
      }
    }
  }

  method MapStream<D, A, N, V>(c: Mapper<D, A, N, V>, decoder: D, assembler: A, encoder: N,
                               chunks: seq<Bytes>, end: Option<string>) returns (sent: seq<Bytes>)
    ensures sent == Sent(c, FRESH, Mapping(decoder, assembler, encoder, false, false, [], None), chunks, end)
  {
    var reader := new SseFrameReader();
    var mapped := new MappedStream(c, decoder, assembler, encoder);
    ghost var total := Sent(c, FRESH, mapped.Before([]), chunks, end);
    assert chunks[0..] == chunks;
    sent := [];
    for i := 0 to |chunks|
      invariant reader.Valid() && mapped.c == c && fresh(mapped) && fresh(reader)
      invariant sent + Sent(c, reader.State(), mapped.Before([]), chunks[i..], end) == total
    {
      ghost var r, m := reader.State(), mapped.Before([]);
      SliceFirst(chunks, i);
      var more, live := ReadAndEmit(mapped, reader, chunks[i]);
      SentAfter(c, r, m, chunks[i], chunks[i + 1..], end, more, reader.State(), mapped.Before([]));
      ConcatAssoc(sent, more, Sent(c, reader.State(), mapped.Before([]), chunks[i + 1..], end));
      sent := sent + more;
      if !live {
        return;
      }
    }
    assert chunks[|chunks|..] == [];
    var closing := EndStream(mapped, reader, end);
    return sent + closing;
  }

  lemma SliceFirst<T>(s: seq<T>, i: nat)
    requires i < |s|
    ensures s[i..] == [s[i]] + s[i + 1..]
  {
  }

  // ---- results ----

  lemma {:induction false} SendAllConcat<D, A, N, V>(c: Mapper<D, A, N, V>, a: seq<Frame>, b: seq<Frame>)
    ensures SendAll(c, a + b) == SendAll(c, a) + SendAll(c, b)
    decreases |b|
  {
    if b == [] {
      assert a + b == a;
    } else {
      var n := |b| - 1;
      assert (a + b)[..|a + b| - 1] == a + b[..n];
      SendAllConcat(c, a, b[..n]);
    }
  }

  lemma {:induction false} EncodeOnto<D, A, N, V>(c: Mapper<D, A, N, V>, m: Mapping<D, A, N>, sofar: seq<Frame>, events: seq<V>)
    ensures EncodeAll(c, m.(out := sofar + m.out), events)
         == EncodeAll(c, m, events).(out := sofar + EncodeAll(c, m, events).out)
    decreases |events|
  {
    if events != [] {
      var n := |events| - 1;
      EncodeOnto(c, m, sofar, events[..n]);
      var q := EncodeAll(c, m, events[..n]);
      var more := match c.encode(q.encoder, events[n]).1 case Ok(v) => v case Err(_) => [];
      ConcatAssoc(sofar, q.out, more);
    }
  }

  lemma {:induction false} AssembleOnto<D, A, N, V>(c: Mapper<D, A, N, V>, m: Mapping<D, A, N>, sofar: seq<Frame>, decoded: seq<V>)
    ensures AssembleAll(c, m.(out := sofar + m.out), decoded)
         == AssembleAll(c, m, decoded).(out := sofar + AssembleAll(c, m, decoded).out)
    decreases |decoded|
  {
    if decoded != [] {
      var n := |decoded| - 1;
      AssembleOnto(c, m, sofar, decoded[..n]);
      var q := AssembleAll(c, m, decoded[..n]);
      var (a, events) := c.assemble(q.assembler, decoded[n]);
      EncodeOnto(c, q.(assembler := a), sofar, events);
    }
  }

  lemma {:induction false} MapOneOnto<D, A, N, V>(c: Mapper<D, A, N, V>, m: Mapping<D, A, N>, sofar: seq<Frame>, f: Frame)
    ensures MapOne(c, m.(out := sofar + m.out), f) == MapOne(c, m, f).(out := sofar + MapOne(c, m, f).out)
  {
    var (d, decoded) := c.decode(m.decoder, f);
    if decoded.Ok? {
      AssembleOnto(c, m.(sawFrame := true, sawTerminal := m.sawTerminal || c.terminal(f), decoder := d), sofar, decoded.value);
    }
  }

  /** Frames encoded earlier only stand in front. */
  lemma {:induction false} MapOnto<D, A, N, V>(c: Mapper<D, A, N, V>, m: Mapping<D, A, N>, sofar: seq<Frame>, frames: seq<Frame>)
    ensures MapAll(c, m.(out := sofar + m.out), frames)
         == MapAll(c, m, frames).(out := sofar + MapAll(c, m, frames).out)
    decreases |frames|
  {
    if frames != [] {
      MapOnto(c, m, sofar, frames[..|frames| - 1]);
      MapOneOnto(c, MapAll(c, m, frames[..|frames| - 1]), sofar, frames[|frames| - 1]);
    }
  }

  /** What is sent for the frames of a body and its end, however they were read. */
  function SentWhole<D, A, N, V>(c: Mapper<D, A, N, V>, r: Reader, m: Mapping<D, A, N>, body: Bytes, end: Option<string>): seq<Bytes> {
    var s := Scan(r, body);
    var all := MapAll(c, m, s.frames);
    SendAll(c, all.out)
    + if all.stop.Some? then [c.errorBytes(all.stop.value)] else Ending(c, s.reader, all.(out := []), end)
  }

  /**
   Main result: what the mapped stream sends, errors and closing frames included, depends on the
   bytes of the body and not on the reads that brought them.
   */
  lemma {:induction false} SentDependsOnBytes<D, A, N, V>(
      c: Mapper<D, A, N, V>, r: Reader, m: Mapping<D, A, N>, chunks: seq<Bytes>, end: Option<string>)
    requires Break(r, Flatten(chunks)).None? && m.stop.None? && m.out == []
    ensures Sent(c, r, m, chunks, end) == SentWhole(c, r, m, Flatten(chunks), end)
    decreases |chunks|
  {
    if chunks == [] {
      assert Scan(r, []).frames == [];
    } else {
      var rest := Flatten(chunks[1..]);
      var s := Scan(r, chunks[0]);
      var next := MapAll(c, m, s.frames);
      FlattenFirst(chunks);
      BreakConcat(r, chunks[0], rest);
      SentStep(c, r, m, chunks[0], chunks[1..], end, next);
      SentWholeStep(c, r, m, chunks[0], rest, end, next);
      SliceFirst(chunks, 0);
      assert chunks[0..] == chunks;
      if next.stop.None? {
        SentDependsOnBytes(c, s.reader, next.(out := []), chunks[1..], end);
      }
    }
  }

  lemma {:induction false} SentWholeStep<D, A, N, V>(
      c: Mapper<D, A, N, V>, r: Reader, m: Mapping<D, A, N>, chunk: Bytes, rest: Bytes, end: Option<string>, next: Mapping<D, A, N>)
    requires m.stop.None? && m.out == [] && next == MapAll(c, m, Scan(r, chunk).frames)
    ensures SentWhole(c, r, m, chunk + rest, end)
         == SendAll(c, next.out) + if next.stop.Some? then [c.errorBytes(next.stop.value)]
                                   else SentWhole(c, Scan(r, chunk).reader, next.(out := []), rest, end)
  {
    var s := Scan(r, chunk);
    var later := Scan(s.reader, rest).frames;
    ScanConcat(r, chunk, rest);
    MapConcat(c, m, s.frames, later);
    if next.stop.None? {
      SentJoin(c, next, later, Scan(s.reader, rest).reader, end);
      var bare := MapAll(c, next.(out := []), later);
      ConcatAssoc(SendAll(c, next.out), SendAll(c, bare.out),
                  if bare.stop.Some? then [c.errorBytes(bare.stop.value)]
                  else Ending(c, Scan(s.reader, rest).reader, bare.(out := []), end));
    }
  }

  lemma {:induction false} SentJoin<D, A, N, V>(
      c: Mapper<D, A, N, V>, next: Mapping<D, A, N>, later: seq<Frame>, r: Reader, end: Option<string>)
    ensures var bare, full := MapAll(c, next.(out := []), later), MapAll(c, next, later);
            && full == bare.(out := next.out + bare.out)
            && SendAll(c, full.out) == SendAll(c, next.out) + SendAll(c, bare.out)
            && full.(out := []) == bare.(out := [])
  {
    var bare := MapAll(c, next.(out := []), later);
    assert next.out + [] == next.out;
    MapOnto(c, next.(out := []), next.out, later);
    SendAllConcat(c, next.out, bare.out);
  }

  lemma {:induction false} MapSeesTerminal<D, A, N, V>(c: Mapper<D, A, N, V>, m: Mapping<D, A, N>, frames: seq<Frame>)
    requires !m.sawTerminal && forall f | f in frames :: !c.terminal(f)
    ensures !MapAll(c, m, frames).sawTerminal
    decreases |frames|
  {
    if frames != [] {
      var n := |frames| - 1;
      MapSeesTerminal(c, m, frames[..n]);
      assert frames[n] in frames;
      MapOneTerminal(c, MapAll(c, m, frames[..n]), frames[n]);
    }
  }

  lemma {:induction false} EncodeKeepsFlags<D, A, N, V>(c: Mapper<D, A, N, V>, m: Mapping<D, A, N>, events: seq<V>)
    ensures EncodeAll(c, m, events).sawTerminal == m.sawTerminal
    decreases |events|
  {
    if events != [] {
      EncodeKeepsFlags(c, m, events[..|events| - 1]);
    }
  }

  lemma {:induction false} AssembleKeepsFlags<D, A, N, V>(c: Mapper<D, A, N, V>, m: Mapping<D, A, N>, decoded: seq<V>)
    ensures AssembleAll(c, m, decoded).sawTerminal == m.sawTerminal
    decreases |decoded|
  {
    if decoded != [] {
      var q := AssembleAll(c, m, decoded[..|decoded| - 1]);
      AssembleKeepsFlags(c, m, decoded[..|decoded| - 1]);
      var (a, events) := c.assemble(q.assembler, decoded[|decoded| - 1]);
      EncodeKeepsFlags(c, q.(assembler := a), events);
    }
  }

  lemma {:induction false} MapOneTerminal<D, A, N, V>(c: Mapper<D, A, N, V>, m: Mapping<D, A, N>, f: Frame)
    requires !c.terminal(f)
    ensures MapOne(c, m, f).sawTerminal == m.sawTerminal
  {
    var (d, decoded) := c.decode(m.decoder, f);
    if decoded.Ok? {
      AssembleKeepsFlags(c, m.(sawFrame := true, sawTerminal := m.sawTerminal || c.terminal(f), decoder := d), decoded.value);
    }
  }

  ghost predicate EndsInError<D, A, N, V>(c: Mapper<D, A, N, V>, sent: seq<Bytes>) {
    sent != [] && exists message :: sent[|sent| - 1] == c.errorBytes(message)
  }

  lemma EndsInErrorAfter<D, A, N, V>(c: Mapper<D, A, N, V>, a: seq<Bytes>, b: seq<Bytes>)
    requires EndsInError(c, b)
    ensures EndsInError(c, a + b)
  {
  }

  lemma ErrorEnds<D, A, N, V>(c: Mapper<D, A, N, V>, message: string)
    ensures EndsInError(c, [c.errorBytes(message)])
  {
  }

  lemma {:induction false} ClosingIsError<D, A, N, V>(c: Mapper<D, A, N, V>, m: Mapping<D, A, N>)
    requires !m.sawTerminal
    ensures EndsInError(c, Closing(c, m))
  {
    var (a, events) := c.flush(m.assembler);
    EncodeKeepsFlags(c, m.(assembler := a, out := []), events);
    var tail := TailOf(c, m);
    if tail.stop.Some? {
      ErrorEnds(c, tail.stop.value);
    } else {
      ErrorEnds(c, INCOMPLETE);
      EndsInErrorAfter(c, SendAll(c, tail.out), [c.errorBytes(INCOMPLETE)]);
    }
  }

  lemma {:induction false} EndingIsError<D, A, N, V>(c: Mapper<D, A, N, V>, r: Reader, m: Mapping<D, A, N>, end: Option<string>)
    requires !m.sawTerminal && m.out == []
    requires EndOfBody(r).1.Ok? && EndOfBody(r).1.value.Some? ==> !c.terminal(EndOfBody(r).1.value.value)
    ensures EndsInError(c, Ending(c, r, m, end))
  {
    if end.Some? {
      ErrorEnds(c, end.value);
    } else {
      match EndOfBody(r).1
      case Err(e) => ErrorEnds(c, c.readErrorText(e));
      case Ok(None) => ClosingIsError(c, m);
      case Ok(Some(f)) =>
        assert m.(out := []) == m;
        var last := MapOne(c, m, f);
        MapOneTerminal(c, m, f);
        if last.stop.Some? {
          ErrorEnds(c, last.stop.value);
          EndsInErrorAfter(c, SendAll(c, last.out), [c.errorBytes(last.stop.value)]);
        } else {
          ClosingIsError(c, last.(out := []));
          EndsInErrorAfter(c, SendAll(c, last.out), Closing(c, last.(out := [])));
        }
    }
  }

  /** Beyond the limits every run ends in an error. */
  lemma {:induction false} BrokenEndsInError<D, A, N, V>(
      c: Mapper<D, A, N, V>, r: Reader, m: Mapping<D, A, N>, chunks: seq<Bytes>, end: Option<string>)
    requires m.stop.None? && m.out == [] && Break(r, Flatten(chunks)).Some?
    ensures EndsInError(c, Sent(c, r, m, chunks, end))
    decreases |chunks|
  {
    FlattenFirst(chunks);
    BreakConcat(r, chunks[0], Flatten(chunks[1..]));
    assert chunks == [chunks[0]] + chunks[1..];
    if Break(r, chunks[0]).Some? {
      SentBroken(c, r, m, chunks[0], chunks[1..], end);
      ErrorEnds(c, c.readErrorText(Break(r, chunks[0]).value));
    } else {
      var s := Scan(r, chunks[0]);
      var next := MapAll(c, m, s.frames);
      SentStep(c, r, m, chunks[0], chunks[1..], end, next);
      if next.stop.Some? {
        ErrorEnds(c, next.stop.value);
        EndsInErrorAfter(c, SendAll(c, next.out), [c.errorBytes(next.stop.value)]);
      } else {
        BrokenEndsInError(c, s.reader, next.(out := []), chunks[1..], end);
        EndsInErrorAfter(c, SendAll(c, next.out), Sent(c, s.reader, next.(out := []), chunks[1..], end));
      }
    }
  }

  /** A body without a terminal frame, or beyond the reader's limits, ends in an error, however it was read. */
  lemma {:induction false} NoTerminalEndsInError<D, A, N, V>(
      c: Mapper<D, A, N, V>, decoder: D, assembler: A, encoder: N, chunks: seq<Bytes>, end: Option<string>)
    requires Break(FRESH, Flatten(chunks)).Some? || forall f | f in BodyFrames(Flatten(chunks)) :: !c.terminal(f)
    ensures EndsInError(c, Sent(c, FRESH, Mapping(decoder, assembler, encoder, false, false, [], None), chunks, end))
  {
    var m := Mapping(decoder, assembler, encoder, false, false, [], None);
    if Break(FRESH, Flatten(chunks)).Some? {
      BrokenEndsInError(c, FRESH, m, chunks, end);
    } else {
      UnfinishedEndsInError(c, m, chunks, end);
    }
  }

  lemma {:induction false} UnfinishedEndsInError<D, A, N, V>(
      c: Mapper<D, A, N, V>, m: Mapping<D, A, N>, chunks: seq<Bytes>, end: Option<string>)
    requires m.stop.None? && m.out == [] && !m.sawTerminal && Break(FRESH, Flatten(chunks)).None?
    requires forall f | f in BodyFrames(Flatten(chunks)) :: !c.terminal(f)
    ensures EndsInError(c, Sent(c, FRESH, m, chunks, end))
  {
    var body := Flatten(chunks);
    SentDependsOnBytes(c, FRESH, m, chunks, end);
    var s := Scan(FRESH, body);
    var all := MapAll(c, m, s.frames);
    TerminalFree(c, body);
    MapSeesTerminal(c, m, s.frames);
    if all.stop.Some? {
      ErrorEnds(c, all.stop.value);
      EndsInErrorAfter(c, SendAll(c, all.out), [c.errorBytes(all.stop.value)]);
    } else {
      EndingIsError(c, s.reader, all.(out := []), end);
      EndsInErrorAfter(c, SendAll(c, all.out), Ending(c, s.reader, all.(out := []), end));
    }
  }

  lemma TerminalFree<D, A, N, V>(c: Mapper<D, A, N, V>, body: Bytes)
    requires forall f | f in BodyFrames(body) :: !c.terminal(f)
    ensures forall f | f in Scan(FRESH, body).frames :: !c.terminal(f)
    ensures var last := EndOfBody(Scan(FRESH, body).reader).1;
            last.Ok? && last.value.Some? ==> !c.terminal(last.value.value)
  {
  }

  // ---- bodies beyond the reader's limits ----

  lemma {:induction false} MapOnlyAdds<D, A, N, V>(c: Mapper<D, A, N, V>, m: Mapping<D, A, N>, frames: seq<Frame>)
    ensures m.out <= MapAll(c, m, frames).out
  {
    var bare := m.(out := []);
    MapOnto(c, bare, m.out, frames);
    assert m.out + [] == m.out;
    assert bare.(out := m.out) == m;
  }

  lemma {:induction false} SendAllLength<D, A, N, V>(c: Mapper<D, A, N, V>, frames: seq<Frame>)
    ensures |SendAll(c, frames)| == |frames|
    decreases |frames|
  {
    if frames != [] {
      SendAllLength(c, frames[..|frames| - 1]);
    }
  }

  /** If the frames before the broken limit send nothing, no cut of the body does. */
  lemma {:induction false} QuietBeforeBreak<D, A, N, V>(
      c: Mapper<D, A, N, V>, r: Reader, m: Mapping<D, A, N>, chunks: seq<Bytes>, end: Option<string>, e: ReadError)
    requires m.stop.None? && m.out == [] && Break(r, Flatten(chunks)) == Some(e)
    requires var p := MapAll(c, m, BeforeBreak(r, Flatten(chunks)));
             p.out == [] && (p.stop.None? || c.errorBytes(p.stop.value) == c.errorBytes(c.readErrorText(e)))
    ensures Sent(c, r, m, chunks, end) == [c.errorBytes(c.readErrorText(e))]
    decreases |chunks|
  {
    assert chunks != [];
    hide Scan, Break, MapAll, BeforeBreak;
    var chunk, others := chunks[0], chunks[1..];
    var rest := Flatten(others);
    FlattenFirst(chunks);
    BreakConcat(r, chunk, rest);
    assert chunks == [chunk] + others;
    if Break(r, chunk).Some? {
      SentBroken(c, r, m, chunk, others, end);
    } else {
      var s := Scan(r, chunk);
      var next, later := MapAll(c, m, s.frames), BeforeBreak(s.reader, rest);
      BeforeBreakConcat(r, chunk, rest);
      MapConcat(c, m, s.frames, later);
      MapOnlyAdds(c, next, later);
      SentStep(c, r, m, chunk, others, end, next);
      if next.stop.Some? {
        MapStopped(c, next, later);
      } else {
        assert next.(out := []) == next;
        QuietBeforeBreak(c, s.reader, next, others, end, e);
      }
    }
  }

  /** What a byte at a time sends: everything the frames before the broken limit send, and one error. */
  lemma {:induction false} BreakByteAtATime<D, A, N, V>(
      c: Mapper<D, A, N, V>, r: Reader, m: Mapping<D, A, N>, body: Bytes, end: Option<string>, e: ReadError)
    requires m.stop.None? && m.out == [] && Break(r, body) == Some(e)
    ensures var p := MapAll(c, m, BeforeBreak(r, body));
            Sent(c, r, m, Singles(body), end)
            == SendAll(c, p.out) + [c.errorBytes(if p.stop.Some? then p.stop.value else c.readErrorText(e))]
    decreases |body|
  {
    var b, rest := body[0], body[1..];
    ScanOne(r, b);
    assert Singles(body) == [[b]] + Singles(rest);
    if BreakByte(r, b).Some? {
      SentBroken(c, r, m, [b], Singles(rest), end);
    } else {
      var s := ScanByte(r, b);
      var next, later := MapAll(c, m, s.frames), BeforeBreak(s.reader, rest);
      MapConcat(c, m, s.frames, later);
      SentStep(c, r, m, [b], Singles(rest), end, next);
      if next.stop.Some? {
        MapStopped(c, next, later);
      } else {
        BreakByteAtATime(c, s.reader, next.(out := []), rest, end, e);
        SentJoin(c, next, later, s.reader, end);
        var bare := MapAll(c, next.(out := []), later);
        ConcatAssoc(SendAll(c, next.out), SendAll(c, bare.out),
                    [c.errorBytes(if bare.stop.Some? then bare.stop.value else c.readErrorText(e))]);
      }
    }
  }

  /**
   Beyond the limits what is sent does depend on the cut: every cut sends only the reader's error exactly when the frames
   before the broken limit send nothing else.
   */
  lemma {:induction false} BrokenBodyDependsOnCut<D, A, N, V>(
      c: Mapper<D, A, N, V>, decoder: D, assembler: A, encoder: N, body: Bytes, end: Option<string>)
    requires Break(FRESH, body).Some?
    ensures var error := c.errorBytes(c.readErrorText(Break(FRESH, body).value));
            var m := Mapping(decoder, assembler, encoder, false, false, [], None);
            var p := MapAll(c, m, BeforeBreak(FRESH, body));
            (forall chunks | Flatten(chunks) == body :: Sent(c, FRESH, m, chunks, end) == [error])
            == (p.out == [] && (p.stop.None? || c.errorBytes(p.stop.value) == error))
  {
    var e := Break(FRESH, body).value;
    var m := Mapping(decoder, assembler, encoder, false, false, [], None);
    var p := MapAll(c, m, BeforeBreak(FRESH, body));
    if p.out == [] && (p.stop.None? || c.errorBytes(p.stop.value) == c.errorBytes(c.readErrorText(e))) {
      forall chunks | Flatten(chunks) == body
        ensures Sent(c, FRESH, m, chunks, end) == [c.errorBytes(c.readErrorText(e))]
      {
        QuietBeforeBreak(c, FRESH, m, chunks, end, e);
      }
    } else {
      FlattenSingles(body);
      BreakByteAtATime(c, FRESH, m, body, end, e);
      SendAllLength(c, p.out);
      var last := c.errorBytes(if p.stop.Some? then p.stop.value else c.readErrorText(e));
      var sent := SendAll(c, p.out) + [last];
      assert |sent| == |p.out| + 1 && sent[|p.out|] == last;
      assert Sent(c, FRESH, m, Singles(body), end) == sent != [c.errorBytes(c.readErrorText(e))];
    }
  }
}
