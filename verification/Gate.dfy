/**
 The same-wire gate: what is forwarded, what is held back, and what an upstream vendor error turns
 into. `Push` and `End` are the gate on values; `SameWireGate` is the object, proved against them.
 */
module Gate {
  import opened Utf8
  import opened Sse
  import opened SseFormat

  const MAX_UPSTREAM_BODY: nat := 16 * 1024 * 1024

  /** The decisions of other modules: the wire, frame classification, white space, error text, no-frame bodies. */
  datatype Upstream = Upstream(
    responses: bool,
    terminal: Frame -> bool,
    wrapped: Bytes -> bool,
    decodeFailure: Frame -> Option<string>,
    trim: Bytes -> Bytes,
    errorJson: string -> Bytes,
    noFrameMessage: Bytes -> string,
    promote: Bytes -> Option<Bytes>)
  {
    /** The vendor error that a `response.failed` frame becomes; only the Responses wire has one. */
    function Failure(f: Frame): Option<string> {
      if responses then decodeFailure(f) else None
    }

    function ErrorFrame(message: string): Frame {
      Frame(Some([101, 114, 114, 111, 114]), errorJson(message))
    }

    function ErrorBytes(message: string): Bytes {
      Format(ErrorFrame(message))
    }

    predicate IsDone(f: Frame) {
      trim(f.data) == DONE
    }

    /** The data, trimmed, is the terminator or a piece of it from the start. */
    predicate IsDonePrefix(f: Frame) {
      trim(f.data) != [] && trim(f.data) <= DONE
    }

    predicate EndsStream(f: Frame) {
      terminal(f) || wrapped(f.data)
    }
  }

  // ---- `[DONE]` ----

  const DONE: Bytes := [91, 68, 79, 78, 69, 93]

  function NotDone(u: Upstream, frames: seq<Frame>): seq<Frame> {
    if frames == [] then []
    else
      var last := frames[|frames| - 1];
      NotDone(u, frames[..|frames| - 1]) + (if u.IsDone(last) then [] else [last])
  }

  // ---- the gate ----

  datatype GateState = GateState(
    reader: Reader, sawFrame: bool, sawTerminal: bool, sawVendorError: bool, dropRest: bool, held: Bytes)

  const NEW: GateState := GateState(FRESH, false, false, false, false, [])

  datatype PushResult = Hold | Forward(bytes: Bytes) | Fail(message: string)

  datatype EndResult = Done(tail: Bytes) | Replace(message: string) | Append(tail: Bytes, message: string)
                     | Promote(bytes: Bytes)

  function ReadErrorText(e: ReadError): string {
    match e
    case LineTooLong => "SSE line exceeds 16777216 bytes"
    case DataTooLong => "SSE data exceeds 16777216 bytes"
  }

  /** Index and vendor error of the first frame that fails. */
  function FirstFailure(u: Upstream, frames: seq<Frame>): (r: Option<(nat, string)>)
    ensures r.Some? ==> r.value.0 < |frames|
  {
    if frames == [] then None
    else if FirstFailure(u, frames[..|frames| - 1]).Some? then FirstFailure(u, frames[..|frames| - 1])
    else if u.Failure(frames[|frames| - 1]).Some? then Some((|frames| - 1, u.Failure(frames[|frames| - 1]).value))
    else None
  }

  predicate AnyWrapped(u: Upstream, frames: seq<Frame>) {
    frames != [] && (AnyWrapped(u, frames[..|frames| - 1]) || u.wrapped(frames[|frames| - 1].data))
  }

  predicate AnyEnds(u: Upstream, frames: seq<Frame>) {
    frames != [] && (AnyEnds(u, frames[..|frames| - 1]) || u.EndsStream(frames[|frames| - 1]))
  }

  function PushOf(u: Upstream, g: GateState, bytes: Bytes): (GateState, PushResult) {
    if g.dropRest then (g, Hold)
    else if !g.sawFrame && |g.held| + |bytes| > MAX_UPSTREAM_BODY then (g, Fail(INCOMPLETE))
    else match Break(g.reader, bytes)
      case Some(error) => PushBroken(u, g.(reader := FRESH), bytes, error)
      case None =>
        var scanned := Scan(g.reader, bytes);
        PushRead(u, g.(reader := scanned.reader), bytes, scanned.frames)
  }

  /** The reader refused the chunk and was reset. */
  function PushBroken(u: Upstream, g: GateState, bytes: Bytes, error: ReadError): (GateState, PushResult) {
    var body := g.held + bytes;
    if g.sawFrame then (g, Fail(ReadErrorText(error)))
    else if u.noFrameMessage(body) != INCOMPLETE then (g, Fail(u.noFrameMessage(body)))
    else (g.(held := body), Hold)
  }

  /** The reader closed `frames` and stands at `g.reader`. */
  function PushRead(u: Upstream, g: GateState, bytes: Bytes, frames: seq<Frame>): (GateState, PushResult) {
    var failure := FirstFailure(u, frames);
    if failure.Some? then
      (GateState(FRESH, true, true, true, true, []),
       Forward(FormatAll(NotDone(u, frames[..failure.value.0])) + u.ErrorBytes(failure.value.1)))
    else if frames == [] then
      if !g.sawFrame then (g.(held := g.held + bytes), Hold)
      else if g.sawVendorError then (g, Hold)
      else if u.responses && g.reader.IsOpen() then (g.(held := g.held + bytes), Hold)
      else (g, Forward(bytes))
    else if g.sawVendorError || AnyWrapped(u, frames) then
      (g.(sawFrame := true, sawVendorError := true, held := [],
          sawTerminal := g.sawTerminal || AnyEnds(u, NotDone(u, frames))),
       Forward(FormatAll(NotDone(u, frames))))
    else if u.responses && g.reader.IsOpen() then
      (g.(sawFrame := true, held := Pending(g.reader),
          sawTerminal := g.sawTerminal || AnyEnds(u, NotDone(u, frames))),
       Forward(FormatAll(NotDone(u, frames))))
    else
      (g.(sawFrame := true, held := [], sawTerminal := g.sawTerminal || AnyEnds(u, frames)),
       Forward(g.held + bytes))
  }

  function NoFrameEnd(u: Upstream, body: Bytes): EndResult {
    var message := u.noFrameMessage(body);
    if message != INCOMPLETE then Replace(message)
    else match u.promote(body)
      case Some(sse) => Promote(sse)
      case None => Replace(message)
  }

  function EndOf(u: Upstream, g: GateState): EndResult {
    if g.dropRest then Done([])
    else match EndOfBody(g.reader).1
      case Err(e) => if g.sawFrame then Append(g.held, ReadErrorText(e)) else NoFrameEnd(u, g.held)
      case Ok(None) => EndWith(u, g, g.held)
      case Ok(Some(f)) =>
        if u.Failure(f).Some? then Replace(u.Failure(f).value)
        else
          EndWith(u, g.(sawFrame := true, sawTerminal := g.sawTerminal || u.EndsStream(f)),
                  g.held + if g.sawVendorError && !u.IsDonePrefix(f) then Format(f) else [])
  }

  function EndWith(u: Upstream, g: GateState, tail: Bytes): EndResult {
    if !g.sawFrame then NoFrameEnd(u, tail)
    else if !g.sawTerminal then Append(tail, INCOMPLETE)
    else Done(tail)
  }

  /** What the driver sends for the end of the body. */
  function EndBytes(u: Upstream, end: EndResult): Bytes {
    match end
    case Done(tail) => tail
    case Replace(message) => u.ErrorBytes(message)
    case Append(tail, message) => tail + u.ErrorBytes(message)
    case Promote(bytes) => bytes
  }

  lemma {:induction false} FirstFailureOfPrefix(u: Upstream, frames: seq<Frame>, n: nat)
    requires n <= |frames| && FirstFailure(u, frames[..n]).Some?
    ensures FirstFailure(u, frames) == FirstFailure(u, frames[..n])
    decreases |frames|
  {
    if n == |frames| {
      assert frames[..n] == frames;
    } else {
      var m := |frames| - 1;
      assert frames[..m][..n] == frames[..n];
      FirstFailureOfPrefix(u, frames[..m], n);
    }
  }

  lemma {:induction false} PrintOneMore(u: Upstream, frames: seq<Frame>, i: nat)
    requires i < |frames|
    ensures var kept, f := NotDone(u, frames[..i]), frames[i];
            && NotDone(u, frames[..i + 1]) == (if u.IsDone(f) then kept else kept + [f])
            && FormatAll(kept + [f]) == FormatAll(kept) + Format(f)
            && AnyEnds(u, kept + [f]) == (AnyEnds(u, kept) || u.EndsStream(f))
  {
    var kept, f := NotDone(u, frames[..i]), frames[i];
    assert frames[..i + 1][..i] == frames[..i];
    assert (kept + [f])[..|kept|] == kept;
    assert kept + [] == kept;
    AnyEndsSnoc(u, kept, f);
  }

  lemma AnyEndsSnoc(u: Upstream, frames: seq<Frame>, f: Frame)
    ensures AnyEnds(u, frames + [f]) == (AnyEnds(u, frames) || u.EndsStream(f))
  {
  }

  // ---- the object ----

  class SameWireGate {
    const u: Upstream
    const reader: SseFrameReader
    var sawFrame: bool
    var sawTerminal: bool
    var sawVendorError: bool
    var dropRest: bool
    var held: Bytes

    ghost predicate Valid()
      reads this, reader
    {
      reader.Valid()
    }

    /** Once the rest is dropped the reader is never looked at again. */
    function State(): GateState
      reads this, reader
    {
      GateState(if dropRest then FRESH else reader.State(), sawFrame, sawTerminal, sawVendorError, dropRest, held)
    }

    constructor (u: Upstream)
      ensures Valid() && fresh(reader) && State() == NEW && this.u == u
    {
      this.u := u;
      reader := new SseFrameReader();
      sawFrame, sawTerminal, sawVendorError, dropRest, held := false, false, false, false, [];
    }

    method NoteTerminal(f: Frame)
      modifies this`sawTerminal
      ensures sawTerminal == (old(sawTerminal) || u.EndsStream(f))
    {
      if u.EndsStream(f) {
        sawTerminal := true;
      }
    }

    /** The frames printed again without `[DONE]`. */
    method Rewrite(frames: seq<Frame>) returns (out: Bytes)
      modifies this`sawTerminal
      ensures out == FormatAll(NotDone(u, frames))
      ensures sawTerminal == (old(sawTerminal) || AnyEnds(u, NotDone(u, frames)))
    {
      out := [];
      for i := 0 to |frames|
        invariant out == FormatAll(NotDone(u, frames[..i]))
        invariant sawTerminal == (old(sawTerminal) || AnyEnds(u, NotDone(u, frames[..i])))
      {
        PrintOneMore(u, frames, i);
        if !u.IsDone(frames[i]) {
          NoteTerminal(frames[i]);
          var printed := FormatSse(frames[i]);
          out := out + printed;
        }
      }
      assert frames[..|frames|] == frames;
    }

    method NoteAll(frames: seq<Frame>)
      modifies this`sawTerminal
      ensures sawTerminal == (old(sawTerminal) || AnyEnds(u, frames))
    {
      for i := 0 to |frames|
        invariant sawTerminal == (old(sawTerminal) || AnyEnds(u, frames[..i]))
      {
        NoteTerminal(frames[i]);
        assert frames[..i + 1] == frames[..i] + [frames[i]];
        AnyEndsSnoc(u, frames[..i], frames[i]);
      }
      assert frames[..|frames|] == frames;
    }

    method FindFailure(frames: seq<Frame>) returns (r: Option<(nat, string)>)
      ensures r == FirstFailure(u, frames)
    {
      for i := 0 to |frames|
        invariant FirstFailure(u, frames[..i]).None?
      {
        assert frames[..i + 1][..i] == frames[..i];
        if u.Failure(frames[i]).Some? {
          FirstFailureOfPrefix(u, frames, i + 1);
          return Some((i, u.Failure(frames[i]).value));
        }
      }
      assert frames[..|frames|] == frames;
      return None;
    }

    method Push(bytes: Bytes) returns (r: PushResult)
      requires Valid()
      modifies this, reader
      ensures Valid()
      ensures (State(), r) == PushOf(u, old(State()), bytes)
    {
      if dropRest {
        return Hold;
      }
      if !sawFrame && |held| + |bytes| > MAX_UPSTREAM_BODY {
        return Fail(INCOMPLETE);
      }
      var fed := reader.Feed(bytes);
      match fed
      case Err(error) => r := Broken(bytes, error);
      case Ok(frames) => r := Read(bytes, frames);
    }

    method Broken(bytes: Bytes, error: ReadError) returns (r: PushResult)
      requires Valid() && !dropRest
      modifies this`held
      ensures (State(), r) == PushBroken(u, old(State()), bytes, error)
    {
      if sawFrame {
        return Fail(ReadErrorText(error));
      }
      var body := held + bytes;
      var message := u.noFrameMessage(body);
      if message != INCOMPLETE {
        return Fail(message);
      }
      held := body;
      return Hold;
    }

    /** What `PushRead` does when `index` is the first failed frame. */
    method DropFrom(frames: seq<Frame>, index: nat, message: string) returns (r: PushResult)
      requires Valid() && index < |frames|
      modifies this, reader
      ensures Valid() && State() == GateState(FRESH, true, true, true, true, [])
      ensures r == Forward(FormatAll(NotDone(u, frames[..index])) + u.ErrorBytes(message))
    {
      hide FormatAll, NotDone, EndOfBody, Format;
      var out := Rewrite(frames[..index]);
      var error := FormatSse(u.ErrorFrame(message));
      sawFrame, sawTerminal, sawVendorError, dropRest, held := true, true, true, true, [];
      var _ := reader.Finish();
      return Forward(out + error);
    }

    method NoFrames(bytes: Bytes, open: bool) returns (r: PushResult)
      modifies this`held
      ensures if !sawFrame || (!sawVendorError && u.responses && open)
              then r == Hold && held == old(held) + bytes
              else held == old(held) && r == if sawVendorError then Hold else Forward(bytes)
    {
      if !sawFrame {
        held := held + bytes;
        return Hold;
      }
      if sawVendorError {
        return Hold;
      }
      if u.responses && open {
        held := held + bytes;
        return Hold;
      }
      return Forward(bytes);
    }

    /** Complete frames are printed again; the bytes of the open one are held back. */
    method HoldOpenFrame(frames: seq<Frame>) returns (out: Bytes)
      modifies this`sawFrame, this`sawTerminal, this`held
      ensures sawFrame && held == Pending(reader.State()) && out == FormatAll(NotDone(u, frames))
      ensures sawTerminal == (old(sawTerminal) || AnyEnds(u, NotDone(u, frames)))
    {
      out := Rewrite(frames);
      sawFrame := true;
      held := Pending(reader.State());
    }

    /** After a vendor error every frame is printed again and nothing is held. */
    method RewriteAfterError(frames: seq<Frame>) returns (out: Bytes)
      modifies this`sawFrame, this`sawTerminal, this`sawVendorError, this`held
      ensures sawFrame && sawVendorError && held == [] && out == FormatAll(NotDone(u, frames))
      ensures sawTerminal == (old(sawTerminal) || AnyEnds(u, NotDone(u, frames)))
    {
      sawVendorError := true;
      sawFrame := true;
      held := [];
      out := Rewrite(frames);
    }

    method PassOn(bytes: Bytes, frames: seq<Frame>) returns (out: Bytes)
      modifies this`sawFrame, this`sawTerminal, this`held
      ensures sawFrame && held == [] && out == old(held) + bytes
      ensures sawTerminal == (old(sawTerminal) || AnyEnds(u, frames))
    {
      sawFrame := true;
      NoteAll(frames);
      out := held + bytes;
      held := [];
    }

    method Read(bytes: Bytes, frames: seq<Frame>) returns (r: PushResult)
      requires Valid() && !dropRest
      modifies this, reader
      ensures Valid()
      ensures (State(), r) == PushRead(u, old(State()), bytes, frames)
    {
      var failure := FindFailure(frames);
      if failure.Some? {
        r := DropFrom(frames, failure.value.0, failure.value.1);
        return;
      }
      var open := reader.State().IsOpen();
      if frames == [] {
        r := NoFrames(bytes, open);
        return;
      }
      var out;
      if sawVendorError || AnyWrapped(u, frames) {
        out := RewriteAfterError(frames);
      } else if u.responses && open {
        out := HoldOpenFrame(frames);
      } else {
        out := PassOn(bytes, frames);
      }
      return Forward(out);
    }

    method Finish() returns (r: EndResult)
      requires Valid()
      modifies this, reader
      ensures r == EndOf(u, old(State()))
    {
      if dropRest {
        return Done([]);
      }
      var last := reader.Finish();
      if last.Err? {
        if !sawFrame {
          return NoFrameEnd(u, held);
        }
        return Append(held, ReadErrorText(last.error));
      }
      var synthesized := [];
      if last.value.Some? {
        var f := last.value.value;
        sawFrame := true;
        if u.Failure(f).Some? {
          held := [];
          return Replace(u.Failure(f).value);
        }
        if sawVendorError && !u.IsDonePrefix(f) {
          synthesized := FormatSse(f);
        }
        NoteTerminal(f);
      }
      var tail := held + synthesized;
      assert held + [] == held;
      held := [];
      if !sawFrame {
        return NoFrameEnd(u, tail);
      }
      if !sawTerminal {
        return Append(tail, INCOMPLETE);
      }
      return Done(tail);
    }
  }
}
