/**
 The client stream: frames become events, events are delivered one pull at a time.

 `Rest` is the sequence of items a stream still has to deliver; `LiveStream.PullLive` takes them off
 one by one. The decoder and the assembler are arbitrary step functions.
 */
module Live {
  import opened Utf8
  import opened Sse

  const MAX_SUCCESS_BODY: nat := 16 * 1024 * 1024
  const MAX_ERROR_BODY: nat := 64 * 1024

  /** The step functions of other modules: D decoder state, A assembler state, V event, E error. */
  datatype Codec<!D, !A, !V, !E> = Codec(
    terminal: Frame -> bool,
    wrapped: Bytes -> Option<E>,
    failed: Frame -> Option<E>,
    decode: (D, Frame) -> (D, Result<seq<V>, E>),
    assemble: (A, V) -> (A, seq<V>),
    flush: A -> seq<V>,
    feedError: ReadError -> E,
    emptyStream: Bytes -> E,
    promote: Bytes -> Option<seq<V>>,
    incomplete: E)

  /** Decoder, assembler and flags, the events not yet delivered, and the error that stops the stream. */
  datatype Progress<D, A, V, E> = Progress(
    decoder: D, assembler: A, sawFrame: bool, sawTerminal: bool, events: seq<V>, stop: Option<E>)

  function AssembleAll<D, A, V, E>(c: Codec<D, A, V, E>, assembler: A, decoded: seq<V>): (A, seq<V>) {
    if decoded == [] then (assembler, [])
    else
      var (a1, before) := AssembleAll(c, assembler, decoded[..|decoded| - 1]);
      var (a2, more) := c.assemble(a1, decoded[|decoded| - 1]);
      (a2, before + more)
  }

  function AbsorbOne<D, A, V, E>(c: Codec<D, A, V, E>, p: Progress<D, A, V, E>, f: Frame): Progress<D, A, V, E> {
    var p1 := p.(sawFrame := true, sawTerminal := p.sawTerminal || c.terminal(f));
    if p.stop.Some? then p
    else if c.wrapped(f.data).Some? then p1.(stop := c.wrapped(f.data))
    else if c.failed(f).Some? then p1.(stop := c.failed(f))
    else
      var (d, decoded) := c.decode(p.decoder, f);
      match decoded
      case Err(e) => p1.(decoder := d, stop := Some(e))
      case Ok(events) =>
        var (a, assembled) := AssembleAll(c, p.assembler, events);
        p1.(decoder := d, assembler := a, events := p.events + assembled)
  }

  /** Frames in turn; the first error ends the stream. */
  function Absorb<D, A, V, E>(c: Codec<D, A, V, E>, p: Progress<D, A, V, E>, frames: seq<Frame>): Progress<D, A, V, E> {
    if frames == [] then p
    else AbsorbOne(c, Absorb(c, p, frames[..|frames| - 1]), frames[|frames| - 1])
  }

  lemma {:induction false} AbsorbConcat<D, A, V, E>(c: Codec<D, A, V, E>, p: Progress<D, A, V, E>, a: seq<Frame>, b: seq<Frame>)
    ensures Absorb(c, p, a + b) == Absorb(c, Absorb(c, p, a), b)
    decreases |b|
  {
    if b == [] {
      assert a + b == a;
    } else {
      var n := |b| - 1;
      assert (a + b)[..|a + b| - 1] == a + b[..n];
      AbsorbConcat(c, p, a, b[..n]);
    }
  }

  lemma {:induction false} AbsorbStopped<D, A, V, E>(c: Codec<D, A, V, E>, p: Progress<D, A, V, E>, frames: seq<Frame>)
    requires p.stop.Some?
    ensures Absorb(c, p, frames) == p
    decreases |frames|
  {
    if frames != [] {
      AbsorbStopped(c, p, frames[..|frames| - 1]);
    }
  }

  // ---- items ----

  type Item<V, E> = Result<V, E>

  function Items<V, E>(events: seq<V>): (r: seq<Item<V, E>>)
    ensures |r| == |events| && forall i | 0 <= i < |r| :: r[i] == Ok(events[i])
  {
    seq(|events|, i requires 0 <= i < |events| => Ok(events[i]))
  }

  predicate IsAsciiWhite(b: byte) {
    b == 9 || b == 10 || b == 12 || b == 13 || b == 32
  }

  predicate JsonPrefix(bytes: Bytes) {
    bytes != [] && if IsAsciiWhite(bytes[0]) then JsonPrefix(bytes[1..]) else bytes[0] == 123 || bytes[0] == 91
  }

  /** The start of a body that has not shown a frame, up to a limit. */
  function Remember(leftover: Bytes, chunk: Bytes): Bytes {
    var cap := if JsonPrefix(leftover) || JsonPrefix(chunk) then MAX_SUCCESS_BODY else MAX_ERROR_BODY;
    if |leftover| + |chunk| <= cap then leftover + chunk
    else if |leftover| >= cap then leftover
    else leftover + chunk[..cap - |leftover|]
  }

  /** A stream between two pulls: what it has absorbed, and the reads still to come. */
  datatype Stream<D, A, V, E> = Stream(
    reader: Reader, progress: Progress<D, A, V, E>, eof: bool, leftover: Bytes, chunks: seq<Bytes>, end: Option<E>)

  /** The items of a stream that is past its last read. */
  function Last<D, A, V, E>(c: Codec<D, A, V, E>, p: Progress<D, A, V, E>): seq<Item<V, E>> {
    Items(p.events)
    + if p.stop.Some? then [Err(p.stop.value)]
      else if p.sawFrame && !p.sawTerminal then [Err(c.incomplete)]
      else []
  }

  /** No frame was seen: the body may still be a whole completion. */
  function NoFrame<D, A, V, E>(c: Codec<D, A, V, E>, p: Progress<D, A, V, E>, leftover: Bytes): seq<Item<V, E>> {
    match c.promote(leftover)
    case Some(events) => Items(p.events + events)
    case None => Items(p.events) + [Err(c.emptyStream(leftover))]
  }

  function AtEnd<D, A, V, E>(c: Codec<D, A, V, E>, s: Stream<D, A, V, E>): seq<Item<V, E>> {
    match s.end
    case Some(e) => Items(s.progress.events) + [Err(e)]
    case None =>
      match EndOfBody(s.reader).1
      case Err(e) =>
        if s.progress.sawFrame then Items(s.progress.events) + [Err(c.feedError(e))]
        else NoFrame(c, s.progress, s.leftover)
      case Ok(last) =>
        var p := if last.Some? then AbsorbOne(c, s.progress, last.value) else s.progress;
        if !p.sawFrame then NoFrame(c, p, s.leftover)
        else Last(c, p.(events := p.events + c.flush(p.assembler)))
  }

  /** The stream after a read that the reader accepted. */
  function AfterChunk<D, A, V, E>(c: Codec<D, A, V, E>, s: Stream<D, A, V, E>): Stream<D, A, V, E>
    requires s.chunks != []
  {
    var scanned := Scan(s.reader, s.chunks[0]);
    Stream(scanned.reader, Absorb(c, s.progress, scanned.frames), s.eof,
           if s.progress.sawFrame then s.leftover else Remember(s.leftover, s.chunks[0]), s.chunks[1..], s.end)
  }

  /** Every item the stream has still to deliver. */
  function Rest<D, A, V, E>(c: Codec<D, A, V, E>, s: Stream<D, A, V, E>): seq<Item<V, E>>
    decreases |s.chunks|
  {
    if s.progress.stop.Some? || s.eof then Last(c, s.progress)
    else if s.chunks == [] then AtEnd(c, s)
    else match Break(s.reader, s.chunks[0])
      case Some(e) => Items(s.progress.events) + [Err(c.feedError(e))]
      case None => Rest(c, AfterChunk(c, s))
  }

  lemma ItemsConcat<V, E>(a: seq<V>, b: seq<V>)
    ensures Items<V, E>(a + b) == Items(a) + Items(b)
  {
  }

  lemma {:induction false} AbsorbOneShows<D, A, V, E>(c: Codec<D, A, V, E>, p: Progress<D, A, V, E>, f: Frame)
    requires p.stop.None?
    ensures AbsorbOne(c, p, f).sawFrame
  {
  }

  lemma NothingShown<V, E>()
    ensures Items<V, E>([]) == [] && forall x: Item<V, E> :: Items<V, E>([]) + [x] == [x]
  {
  }

  /** Events already pending only go in front of the rest. */
  lemma {:induction false} AbsorbPending<D, A, V, E>(c: Codec<D, A, V, E>, p: Progress<D, A, V, E>, events: seq<V>, frames: seq<Frame>)
    ensures Absorb(c, p.(events := events + p.events), frames)
         == Absorb(c, p, frames).(events := events + Absorb(c, p, frames).events)
    decreases |frames|
  {
    if frames != [] {
      AbsorbPending(c, p, events, frames[..|frames| - 1]);
      var q := Absorb(c, p, frames[..|frames| - 1]);
      var f := frames[|frames| - 1];
      var more := AssembleAll(c, q.assembler, match c.decode(q.decoder, f).1 case Ok(v) => v case Err(_) => []).1;
      ConcatAssoc(events, q.events, more);
    }
  }

  lemma {:induction false} AbsorbOnePending<D, A, V, E>(c: Codec<D, A, V, E>, p: Progress<D, A, V, E>, events: seq<V>, f: Frame)
    ensures AbsorbOne(c, p.(events := events + p.events), f)
         == AbsorbOne(c, p, f).(events := events + AbsorbOne(c, p, f).events)
  {
    AbsorbPending(c, p, events, [f]);
    assert [f][..0] == [];
  }

  lemma {:induction false} ItemsAhead<V, E>(a: seq<V>, b: seq<V>, rest: seq<Item<V, E>>)
    ensures Items<V, E>(a + b) + rest == Items(a) + (Items(b) + rest)
  {
    hide Items;
    ItemsConcat<V, E>(a, b);
    ConcatAssoc(Items<V, E>(a), Items<V, E>(b), rest);
  }

  lemma {:induction false} LastPending<D, A, V, E>(c: Codec<D, A, V, E>, p: Progress<D, A, V, E>, events: seq<V>)
    ensures Last(c, p.(events := events + p.events)) == Items(events) + Last(c, p)
  {
    hide Items;
    ItemsAhead<V, E>(events, p.events, []);
    ItemsAhead(events, p.events, if p.stop.Some? then [Err(p.stop.value)] else [Err(c.incomplete)]);
  }

  lemma {:induction false} NoFramePending<D, A, V, E>(c: Codec<D, A, V, E>, p: Progress<D, A, V, E>, leftover: Bytes, events: seq<V>)
    ensures NoFrame(c, p.(events := events + p.events), leftover) == Items(events) + NoFrame(c, p, leftover)
  {
    hide Items;
    match c.promote(leftover)
    case Some(more) =>
      ConcatAssoc(events, p.events, more);
      ItemsConcat<V, E>(events, p.events + more);
    case None => ItemsAhead(events, p.events, [Err(c.emptyStream(leftover))]);
  }

  lemma {:induction false} RestPending<D, A, V, E>(c: Codec<D, A, V, E>, s: Stream<D, A, V, E>, events: seq<V>)
    ensures Rest(c, s.(progress := s.progress.(events := events + s.progress.events))) == Items(events) + Rest(c, s)
    decreases |s.chunks|
  {
    hide Items, Last, AtEnd, Scan, Break, Absorb;
    var p := s.progress;
    var t := s.(progress := p.(events := events + p.events));
    if p.stop.Some? || s.eof {
      LastPending(c, p, events);
    } else if s.chunks == [] {
      AtEndPending(c, s, events);
    } else {
      match Break(s.reader, s.chunks[0])
      case Some(e) => ItemsAhead(events, p.events, [Err(c.feedError(e))]);
      case None =>
        AbsorbPending(c, p, events, Scan(s.reader, s.chunks[0]).frames);
        RestPending(c, AfterChunk(c, s), events);
    }
  }

  lemma {:induction false} AtEndPending<D, A, V, E>(c: Codec<D, A, V, E>, s: Stream<D, A, V, E>, events: seq<V>)
    ensures AtEnd(c, s.(progress := s.progress.(events := events + s.progress.events))) == Items(events) + AtEnd(c, s)
  {
    hide Items, Last, NoFrame, EndOfBody, AbsorbOne;
    var p := s.progress;
    if s.end.Some? {
      ItemsAhead(events, p.events, [Err(s.end.value)]);
      return;
    }
    match EndOfBody(s.reader).1
    case Err(e) =>
      ItemsAhead(events, p.events, [Err(c.feedError(e))]);
      NoFramePending(c, p, s.leftover, events);
    case Ok(last) =>
      var q := p;
      if last.Some? {
        AbsorbOnePending(c, p, events, last.value);
        q := AbsorbOne(c, p, last.value);
      }
      NoFramePending(c, q, s.leftover, events);
      ConcatAssoc(events, q.events, c.flush(q.assembler));
      LastPending(c, q.(events := q.events + c.flush(q.assembler)), events);
  }

  lemma {:induction false} NothingPending<D, A, V, E>(c: Codec<D, A, V, E>, s: Stream<D, A, V, E>)
    requires s.progress.events == []
    ensures s.progress.stop.Some? ==> Rest(c, s) == [Err(s.progress.stop.value)]
    ensures s.progress.stop.None? && s.eof ==>
              Rest(c, s) == if s.progress.sawFrame && !s.progress.sawTerminal then [Err(c.incomplete)] else []
  {
  }

  lemma {:induction false} TakeFirst<D, A, V, E>(c: Codec<D, A, V, E>, s: Stream<D, A, V, E>)
    requires s.progress.events != []
    ensures Rest(c, s) == [Ok(s.progress.events[0])] + Rest(c, s.(progress := s.progress.(events := s.progress.events[1..])))
  {
    hide Rest;
    var events := s.progress.events;
    assert [events[0]] + events[1..] == events;
    RestPending(c, s.(progress := s.progress.(events := events[1..])), [events[0]]);
  }

  // ---- the object ----

  class LiveStream<D, A, V, E> {
    const c: Codec<D, A, V, E>
    const reader: SseFrameReader
    const end: Option<E>
    var chunks: seq<Bytes>
    var decoder: D
    var assembler: A
    var pending: seq<V>
    var eof: bool
    var sawFrame: bool
    var sawTerminal: bool
    var leftover: Bytes
    var stopError: Option<E>

    ghost predicate Valid()
      reads this, reader
    {
      reader.Valid()
    }

    ghost function Absorbed(): Progress<D, A, V, E>
      reads this
    {
      Progress(decoder, assembler, sawFrame, sawTerminal, pending, stopError)
    }

    ghost function State(): Stream<D, A, V, E>
      reads this, reader
    {
      Stream(reader.State(), Absorbed(), eof, leftover, chunks, end)
    }

    constructor (c: Codec<D, A, V, E>, decoder: D, assembler: A, chunks: seq<Bytes>, end: Option<E>)
      ensures Valid() && fresh(reader) && this.c == c
      ensures State() == Opened(decoder, assembler, chunks, end)
    {
      this.c, this.decoder, this.assembler, this.chunks, this.end := c, decoder, assembler, chunks, end;
      reader := new SseFrameReader();
      pending, leftover, stopError := [], [], None;
      eof, sawFrame, sawTerminal := false, false, false;
    }

    method AssembleInto(decoded: seq<V>)
      modifies this`assembler, this`pending
      ensures assembler == AssembleAll(c, old(assembler), decoded).0
      ensures pending == old(pending) + AssembleAll(c, old(assembler), decoded).1
    {
      assert pending + [] == pending;
      for i := 0 to |decoded|
        invariant assembler == AssembleAll(c, old(assembler), decoded[..i]).0
        invariant pending == old(pending) + AssembleAll(c, old(assembler), decoded[..i]).1
      {
        assert decoded[..i + 1][..i] == decoded[..i];
        var (a, more) := c.assemble(assembler, decoded[i]);
        ConcatAssoc(old(pending), AssembleAll(c, old(assembler), decoded[..i]).1, more);
        assembler := a;
        pending := pending + more;
      }
      assert decoded[..|decoded|] == decoded;
    }

    method PushFrame(f: Frame) returns (r: Option<E>)
      requires stopError.None?
      modifies this`decoder, this`assembler, this`pending, this`sawFrame, this`sawTerminal
      ensures Absorbed().(stop := r) == AbsorbOne(c, old(Absorbed()), f)
    {
      sawFrame := true;
      if c.terminal(f) {
        sawTerminal := true;
      }
      var refused := c.wrapped(f.data);
      if refused.Some? {
        return refused;
      }
      refused := c.failed(f);
      if refused.Some? {
        return refused;
      }
      var (d, decoded) := c.decode(decoder, f);
      decoder := d;
      match decoded
      case Err(e) => return Some(e);
      case Ok(events) =>
        AssembleInto(events);
        return None;
    }

    /** Stops at the first frame that is an error. */
    method PushFrames(frames: seq<Frame>) returns (r: Option<E>)
      requires stopError.None?
      modifies this`decoder, this`assembler, this`pending, this`sawFrame, this`sawTerminal
      ensures Absorbed().(stop := r) == Absorb(c, old(Absorbed()), frames)
    {
      for i := 0 to |frames|
        invariant Absorbed() == Absorb(c, old(Absorbed()), frames[..i])
      {
        assert frames[..i + 1][..i] == frames[..i];
        r := PushFrame(frames[i]);
        if r.Some? {
          assert frames == frames[..i + 1] + frames[i + 1..];
          AbsorbConcat(c, old(Absorbed()), frames[..i + 1], frames[i + 1..]);
          AbsorbStopped(c, Absorbed().(stop := r), frames[i + 1..]);
          return r;
        }
      }
      assert frames[..|frames|] == frames;
      return None;
    }

    /** The next read, or the end of the body. An error here ends the stream at once. */
    method ReadNext() returns (failed: Option<E>)
      requires Valid() && pending == [] && stopError.None? && !eof
      modifies this, reader
      ensures Valid()
      ensures if failed.Some? then old(Rest(c, State())) == [Err(failed.value)]
              else Rest(c, State()) == old(Rest(c, State()))
      ensures failed.None? ==> |chunks| < old(|chunks|) || (eof && chunks == old(chunks))
    {
      hide Break, AtEnd, Last, Items, AfterChunk;
      NothingShown<V, E>();
      if |chunks| == 0 {
        failed := ReadEnd();
      } else {
        failed := ReadChunk();
      }
    }

    method ReadChunk() returns (failed: Option<E>)
      requires Valid() && stopError.None? && chunks != []
      modifies this, reader
      ensures Valid()
      ensures match old(Break(reader.State(), chunks[0]))
              case Some(e) => failed == Some(c.feedError(e))
              case None => failed.None? && State() == old(AfterChunk(c, State())) && |chunks| < old(|chunks|)
    {
      hide Scan, Break, Absorb, Remember;
      var chunk := chunks[0];
      chunks := chunks[1..];
      if !sawFrame {
        leftover := Remember(leftover, chunk);
      }
      var fed := reader.Feed(chunk);
      match fed
      case Err(e) => return Some(c.feedError(e));
      case Ok(frames) =>
        var refused := PushFrames(frames);
        stopError := refused;
        return None;
    }

    method ReadEnd() returns (failed: Option<E>)
      requires Valid() && pending == [] && stopError.None? && !eof && chunks == []
      modifies this, reader
      ensures Valid()
      ensures if failed.Some? then old(AtEnd(c, State())) == [Err(failed.value)]
              else Last(c, Absorbed()) == old(AtEnd(c, State())) && eof && chunks == old(chunks)
    {
      hide EndOfBody, AbsorbOne, Items;
      NothingShown<V, E>();
      if end.Some? {
        return end;
      }
      ghost var before := State();
      var last := reader.Finish();
      if last.Err? && sawFrame {
        return Some(c.feedError(last.error));
      }
      if last.Ok? && last.value.Some? {
        var refused := PushFrame(last.value.value);
        stopError := refused;
        AbsorbOneShows(c, before.progress, last.value.value);
      }
      if !sawFrame {
        failed := PromoteOrFail();
        return;
      }
      FlushTail();
      return None;
    }

    method FlushTail()
      modifies this`pending, this`eof
      ensures eof && pending == old(pending) + c.flush(assembler)
    {
      pending := pending + c.flush(assembler);
      eof := true;
    }

    method PromoteOrFail() returns (failed: Option<E>)
      requires Valid() && stopError.None? && !sawFrame
      modifies this`pending, this`sawFrame, this`sawTerminal, this`eof
      ensures match c.promote(leftover)
              case Some(events) =>
                && failed.None? && eof && sawFrame && sawTerminal && pending == old(pending) + events
              case None =>
                failed == Some(c.emptyStream(leftover)) && old(State()) == State()
    {
      var promoted := c.promote(leftover);
      match promoted
      case Some(events) =>
        pending := pending + events;
        sawFrame, sawTerminal, eof := true, true, true;
        return None;
      case None =>
        return Some(c.emptyStream(leftover));
    }

    method PopFront() returns (event: V)
      requires Valid() && |pending| > 0
      modifies this`pending
      ensures old(Rest(c, State())) == [Ok(event)] + Rest(c, State())
    {
      TakeFirst(c, State());
      event := pending[0];
      pending := pending[1..];
    }

    /** One pull: the next item, and whether the stream goes on after it. */
    method PullLive() returns (item: Option<Item<V, E>>, live: bool)
      requires Valid()
      modifies this, reader
      ensures Valid()
      ensures old(Rest(c, State())) == match item
                                       case None => []
                                       case Some(i) => [i] + if live then Rest(c, State()) else []
      ensures item.None? ==> !live
    {
      while true
        invariant Valid() && Rest(c, State()) == old(Rest(c, State()))
        decreases |chunks|, if eof then 0 else 1
      {
        if |pending| > 0 {
          var event := PopFront();
          return Some(Ok(event)), true;
        }
        NothingPending(c, State());
        if stopError.Some? {
          return Some(Err(stopError.value)), false;
        }
        if eof {
          if sawFrame && !sawTerminal {
            return Some(Err(c.incomplete)), false;
          }
          return None, false;
        }
        var failed := ReadNext();
        if failed.Some? {
          return Some(Err(failed.value)), false;
        }
      }
    }

    /** Pulls until the stream is done. */
    method DeliverAll() returns (items: seq<Item<V, E>>)
      requires Valid()
      modifies this, reader
      ensures items == old(Rest(c, State()))
    {
      items := [];
      var live := true;
      while live
        invariant Valid() && items + (if live then Rest(c, State()) else []) == old(Rest(c, State()))
        decreases if live then |Rest(c, State())| + 1 else 0
      {
        var item;
        item, live := PullLive();
        if item.Some? {
          items := items + [item.value];
        }
      }
    }
  }

  function Opened<D, A, V, E>(decoder: D, assembler: A, chunks: seq<Bytes>, end: Option<E>): Stream<D, A, V, E> {
    Stream(FRESH, Progress(decoder, assembler, false, false, [], None), false, [], chunks, end)
  }
}
