/**
 The shared refresh: a slot that holds the receiver of the refresh in flight, and a watch channel for each refresh.
 */
module SingleFlight {
  import opened Utf8

  /** An access token. `since` is the time the POST that brought it was sent; it is kept for the proofs only. */
  datatype Token = Token(text: string, since: nat)

  datatype AuthError = TokenProvider(message: string) | Rejected(message: string)

  /** Followers get the leader's token, or its error as text. */
  type Shared = Result<Token, string>

  const ABORTED: string := "token refresh aborted"
  const CANCELLED: string := "token refresh cancelled"

  /** A watch channel: what was sent, and who holds a receiver. `leader` is the caller that holds the sender. */
  datatype Channel = Channel(leader: nat, value: Option<Shared>, receivers: set<nat>)

  datatype Flight = Flight(slot: Option<nat>, channels: seq<Channel>)

  predicate IsFlight(f: Flight) {
    f.slot.Some? ==> f.slot.value < |f.channels|
  }

  /** A refresh is in flight while the slot is taken. */
  predicate Busy(f: Flight) {
    f.slot.Some?
  }

  /** Who a claim makes of its caller. */
  datatype Role = Leader(channel: nat) | Follower(channel: nat)

  function ClaimRole(f: Flight): Role {
    match f.slot
    case Some(c) => Follower(c)
    case None => Leader(|f.channels|)
  }

  function Claimed(f: Flight, id: nat): Flight
    requires IsFlight(f)
  {
    match f.slot
    case Some(c) =>
      f.(channels := f.channels[c := f.channels[c].(receivers := f.channels[c].receivers + {id})])
    case None =>
      Flight(Some(|f.channels|), f.channels + [Channel(id, None, {})])
  }

  function Cleared(f: Flight): Flight {
    f.(slot := None)
  }

  /** Does the slot itself hold a receiver of channel `c`? */
  predicate HeldBySlot(f: Flight, c: nat) {
    f.slot == Some(c)
  }

  /** A send reaches the channel only while someone holds a receiver. */
  function Sent(f: Flight, c: nat, shared: Shared): Flight
    requires c < |f.channels|
  {
    if f.channels[c].receivers == {} && !HeldBySlot(f, c) then f
    else f.(channels := f.channels[c := f.channels[c].(value := Some(shared))])
  }

  function Left(f: Flight, c: nat, id: nat): Flight
    requires c < |f.channels|
  {
    f.(channels := f.channels[c := f.channels[c].(receivers := f.channels[c].receivers - {id})])
  }

  function Share(result: Result<Token, AuthError>): Shared {
    match result
    case Ok(token) => Ok(token)
    case Err(e) => Err(e.message)
  }

  function Receive(shared: Shared): Result<Token, AuthError> {
    match shared
    case Ok(token) => Ok(token)
    case Err(message) => Err(TokenProvider(message))
  }

  /** One look of `follow_refresh` at its channel; `None` while it has to wait. */
  function Poll(f: Flight, c: nat, senderGone: bool): Option<Result<Token, AuthError>>
    requires c < |f.channels|
  {
    match f.channels[c].value
    case Some(shared) => Some(Receive(shared))
    case None => if senderGone then Some(Err(TokenProvider(CANCELLED))) else None
  }

  /** `InFlight`. Each method is one critical section of the slot's lock, or one send. */
  class InFlight {
    var slot: Option<nat>
    var channels: seq<Channel>

    ghost function Now(): Flight
      reads this
    {
      Flight(slot, channels)
    }

    constructor ()
      ensures Now() == Flight(None, [])
    {
      slot, channels := None, [];
    }

    method Claim(id: nat) returns (role: Role)
      requires IsFlight(Now())
      modifies this
      ensures role == ClaimRole(old(Now())) && Now() == Claimed(old(Now()), id)
    {
      if slot.Some? {
        var c := slot.value;
        channels := channels[c := channels[c].(receivers := channels[c].receivers + {id})];
        return Follower(c);
      }
      role := Leader(|channels|);
      slot := Some(|channels|);
      channels := channels + [Channel(id, None, {})];
    }

    method ClearSlot()
      modifies this`slot
      ensures Now() == Cleared(old(Now()))
    {
      slot := None;
    }

    method Send(c: nat, shared: Shared)
      requires c < |channels|
      modifies this`channels
      ensures Now() == Sent(old(Now()), c, shared)
    {
      if channels[c].receivers != {} || slot == Some(c) {
        channels := channels[c := channels[c].(value := Some(shared))];
      }
    }
  }

  /** `RefreshLeader`: whoever holds it ends the refresh exactly once, by completing it or by being dropped. */
  class RefreshLeader {
    const inner: InFlight
    const channel: nat
    var finished: bool

    constructor (inner: InFlight, channel: nat)
      ensures this.inner == inner && this.channel == channel && !finished
    {
      this.inner, this.channel, finished := inner, channel, false;
    }

    method Complete(result: Result<Token, AuthError>)
      requires channel < |inner.channels|
      modifies this, inner
      ensures finished
      ensures inner.Now() == Sent(Cleared(old(inner.Now())), channel, Share(result))
    {
      finished := true;
      inner.ClearSlot();
      var shared;
      match result {
        case Ok(token) => shared := Ok(token);
        case Err(e) => shared := Err(e.message);
      }
      inner.Send(channel, shared);
    }

    method Drop()
      requires channel < |inner.channels|
      modifies inner
      ensures inner.Now() == if finished then old(inner.Now()) else Sent(Cleared(old(inner.Now())), channel, Err(ABORTED))
    {
      if finished {
        return;
      }
      inner.ClearSlot();
      inner.Send(channel, Err(ABORTED));
    }
  }
}
