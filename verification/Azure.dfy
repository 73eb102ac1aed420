/**
 Parallel `get_token` calls, as atomic steps: any number of callers, `mark_stale`, and futures dropped while they wait.
 */
module Azure {
  import opened Utf8
  import opened SingleFlight

  type Answer = Result<Token, AuthError>

  /** Where a call stands. `c` is its channel, `force` what it swapped out of the force flag. */
  datatype Phase =
    | Entering
    | Guarded
    | Unforced
    | Claiming
    | Following(c: nat)
    | Leading(c: nat)
    | Swapped(c: nat, force: bool)
    | Reading(c: nat, force: bool)
    | Posting(c: nat, force: bool, sent: nat)
    | Writing(c: nat, force: bool, got: Token)
    | Finishing(c: nat, force: bool, answer: Answer)
    | Ending(c: nat, answer: Answer)
    | Sending(c: nat, answer: Answer)
    | Fast(token: Token)
    | Led(answer: Answer)
    | Followed(answer: Answer)
    | Gone

  /** `begun` is the time of the last `mark_stale` before the call began. */
  datatype Call = Call(begun: nat, phase: Phase)

  /** The part a call plays in the shared refresh. */
  datatype Part = Outside | Leads(c: nat) | Sends(c: nat, answer: Answer) | Follows(c: nat) | Done(answer: Answer)

  function PartOf(phase: Phase): Part {
    match phase
    case Following(c) => Follows(c)
    case Leading(c) => Leads(c)
    case Swapped(c, _) => Leads(c)
    case Reading(c, _) => Leads(c)
    case Posting(c, _, _) => Leads(c)
    case Writing(c, _, _) => Leads(c)
    case Finishing(c, _, _) => Leads(c)
    case Ending(c, _) => Leads(c)
    case Sending(c, answer) => Sends(c, answer)
    case Led(answer) => Done(answer)
    case _ => Outside
  }

  /**
   The provider and its callers. `clock` counts marks and POSTs, `marked` is the time of the last mark, `failed` says
   whether a forced POST ever failed and `lost` whether a leader that held the force flag was ever dropped: these four
   are kept for the proofs only.
   */
  datatype State = State(
    force: bool,
    cache: Option<Token>,
    readers: set<nat>,
    flight: Flight,
    calls: map<nat, Call>,
    clock: nat,
    marked: nat,
    failed: bool,
    lost: bool)

  function Init(force: bool): State {
    State(force, None, {}, Flight(None, []), map[], 0, 0, false, false)
  }

  /** One atomic step; `valid` is what the token's clock says, `result` what the token endpoint answers. */
  datatype Step =
    | MarkStale
    | Begin(id: nat)
    | Enter(id: nat)
    | LoadForce(id: nat)
    | CheckFast(id: nat, valid: bool)
    | Claim(id: nat)
    | Swap(id: nat)
    | Read(id: nat)
    | CheckCache(id: nat, valid: bool)
    | Post(id: nat, result: Result<string, AuthError>)
    | Write(id: nat)
    | Restore(id: nat)
    | Clear(id: nat)
    | Send(id: nat)
    | Wake(id: nat)
    | Drop(id: nat)

  function Moved(s: State, id: nat, phase: Phase): State
    requires id in s.calls
  {
    s.(calls := s.calls[id := s.calls[id].(phase := phase)])
  }

  function Locked(s: State, id: nat, phase: Phase): State
    requires id in s.calls
  {
    Moved(s, id, phase).(readers := s.readers + {id})
  }

  function Unlocked(s: State, id: nat, phase: Phase): State
    requires id in s.calls
  {
    Moved(s, id, phase).(readers := s.readers - {id})
  }

  /** Is the sender of channel `c` gone? The call that leads `c` holds it until it has sent. */
  predicate SenderGone(s: State, c: nat)
    requires c < |s.flight.channels|
  {
    var leader := s.flight.channels[c].leader;
    leader !in s.calls || !(PartOf(s.calls[leader].phase).Leads? || PartOf(s.calls[leader].phase).Sends?)
  }

  predicate CanUseCache(s: State, valid: bool) {
    s.cache.Some? && valid
  }

  /** A step of the call `id`; `None` when the call does not stand where the step starts, or has to wait. */
  function CallStep(s: State, id: nat, step: Step): Option<State>
    requires id in s.calls && IsFlight(s.flight)
  {
    if step.Drop? then DropStep(s, id)
    else if step.Enter? || step.LoadForce? || step.CheckFast? then LookStep(s, id, step)
    else if step.Claim? || step.Clear? || step.Send? || step.Wake? then ChannelStep(s, id, step)
    else RefreshStep(s, id, step)
  }

  /** Before the call joins a refresh. */
  function LookStep(s: State, id: nat, step: Step): Option<State>
    requires id in s.calls
  {
    match (step, s.calls[id].phase)
    case (Enter(_), Entering) =>
      Some(Locked(s, id, Guarded))
    case (LoadForce(_), Guarded) =>
      Some(if s.force then Unlocked(s, id, Claiming) else Moved(s, id, Unforced))
    case (CheckFast(_, valid), Unforced) =>
      Some(Unlocked(s, id, if CanUseCache(s, valid) && !Busy(s.flight) then Fast(s.cache.value) else Claiming))
    case _ => None
  }

  /** On the slot and the channels. */
  function ChannelStep(s: State, id: nat, step: Step): Option<State>
    requires id in s.calls && IsFlight(s.flight)
  {
    match (step, s.calls[id].phase)
    case (Claim(_), Claiming) =>
      var phase := match ClaimRole(s.flight) case Leader(c) => Leading(c) case Follower(c) => Following(c);
      Some(Moved(s, id, phase).(flight := Claimed(s.flight, id)))
    case (Clear(_), Ending(c, answer)) =>
      Some(Moved(s, id, Sending(c, answer)).(flight := Cleared(s.flight)))
    case (Send(_), Sending(c, answer)) =>
      if c >= |s.flight.channels| then None
      else Some(Moved(s, id, Led(answer)).(flight := Sent(s.flight, c, Share(answer))))
    case (Wake(_), Following(c)) =>
      if c >= |s.flight.channels| then None
      else (
        match Poll(s.flight, c, SenderGone(s, c))
        case Some(answer) => Some(Moved(s, id, Followed(answer)).(flight := Left(s.flight, c, id)))
        case None => None)
    case _ => None
  }

  /** The refresh of a leader. */
  function RefreshStep(s: State, id: nat, step: Step): Option<State>
    requires id in s.calls
  {
    match (step, s.calls[id].phase)
    case (Swap(_), Leading(c)) =>
      Some(Moved(s, id, Swapped(c, s.force)).(force := false))
    case (Read(_), Swapped(c, force)) =>
      Some(Locked(s, id, Reading(c, force)))
    case (CheckCache(_, valid), Reading(c, force)) =>
      if !force && CanUseCache(s, valid) then Some(Unlocked(s, id, Finishing(c, force, Ok(s.cache.value))))
      else Some(Unlocked(s, id, Posting(c, force, s.clock + 1)).(clock := s.clock + 1))
    case (Post(_, Ok(text)), Posting(c, force, sent)) =>
      Some(Moved(s, id, Writing(c, force, Token(text, sent))))
    case (Post(_, Err(e)), Posting(c, force, sent)) =>
      Some(Moved(s, id, Finishing(c, force, Err(e))).(failed := s.failed || force))
    case (Write(_), Writing(c, force, token)) =>
      if s.readers != {} then None
      else Some(Moved(s, id, Finishing(c, force, Ok(token))).(cache := Some(token)))
    case (Restore(_), Finishing(c, force, answer)) =>
      Some(Moved(s, id, Ending(c, answer)).(force := s.force || (answer.Err? && force)))
    case _ => None
  }

  /** The future is dropped at one of its await points. */
  function DropStep(s: State, id: nat): Option<State>
    requires id in s.calls && IsFlight(s.flight)
  {
    match s.calls[id].phase
    case Entering =>
      Some(Moved(s, id, Gone))
    case Following(c) =>
      if c >= |s.flight.channels| then None
      else Some(Moved(s, id, Gone).(flight := Left(s.flight, c, id)))
    case Swapped(c, force) => Some(Abort(s, id, c, force))
    case Posting(c, force, _) => Some(Abort(s, id, c, force))
    case Writing(c, force, _) => Some(Abort(s, id, c, force))
    case _ => None
  }

  /** A dropped leader first drops the refresh it waits for, then ends it as aborted. */
  function Abort(s: State, id: nat, c: nat, force: bool): State
    requires id in s.calls
  {
    Moved(s, id, Ending(c, Err(TokenProvider(ABORTED)))).(lost := s.lost || force)
  }

  function Next(s: State, step: Step): Option<State> {
    match step
    case MarkStale =>
      Some(s.(force := true, clock := s.clock + 1, marked := s.clock + 1))
    case Begin(id) =>
      if id in s.calls then None else Some(s.(calls := s.calls[id := Call(s.marked, Entering)]))
    case _ =>
      if step.id in s.calls && IsFlight(s.flight) then CallStep(s, step.id, step) else None
  }

  /** The state after a run, if every step of it could be taken. */
  function Run(force: bool, steps: seq<Step>): Option<State> {
    if steps == [] then Some(Init(force))
    else
      match Run(force, steps[..|steps| - 1])
      case Some(s) => Next(s, steps[|steps| - 1])
      case None => None
  }
}
