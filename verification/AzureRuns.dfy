/** What holds in every run of parallel `get_token` calls. */
module AzureRuns {
  import opened Utf8
  import opened SingleFlight
  import opened Azure

  // ---- the shared refresh ----

  predicate SlotStands(s: State) {
    s.flight.slot.Some? ==>
      var c := s.flight.slot.value;
      && c < |s.flight.channels|
      && s.flight.channels[c].leader in s.calls
      && PartOf(s.calls[s.flight.channels[c].leader].phase) == Leads(c)
  }

  /** A leader has the slot; one that sends has left it; a follower holds a receiver. */
  predicate CallStands(s: State, id: nat)
    requires id in s.calls
  {
    match PartOf(s.calls[id].phase)
    case Leads(c) => s.flight.slot == Some(c) && c < |s.flight.channels| && s.flight.channels[c].leader == id
    case Sends(c, _) => s.flight.slot != Some(c) && c < |s.flight.channels| && s.flight.channels[c].leader == id
    case Follows(c) => c < |s.flight.channels| && id in s.flight.channels[c].receivers
    case _ => true
  }

  /** A channel is silent until its leader is done, and then whoever holds a receiver sees the leader's answer. */
  predicate ChannelStands(s: State, c: nat)
    requires c < |s.flight.channels|
  {
    var channel := s.flight.channels[c];
    channel.leader in s.calls &&
    match PartOf(s.calls[channel.leader].phase)
    case Leads(d) => d == c && channel.value == None
    case Sends(d, _) => d == c && channel.value == None
    case Done(answer) =>
      s.flight.slot != Some(c) && (channel.value == Some(Share(answer)) || (channel.value == None && channel.receivers == {}))
    case _ => false
  }

  ghost predicate Stands(s: State) {
    && SlotStands(s)
    && (forall id :: id in s.calls ==> CallStands(s, id))
    && (forall c :: 0 <= c < |s.flight.channels| ==> ChannelStands(s, c))
  }

  /** A step that changes no part keeps the shared refresh. */
  lemma SamePart(s: State, t: State, id: nat)
    requires Stands(s) && t.flight == s.flight && id in s.calls && t.calls.Keys == s.calls.Keys
    requires forall k :: k in s.calls && k != id ==> t.calls[k] == s.calls[k]
    requires PartOf(t.calls[id].phase) == PartOf(s.calls[id].phase)
    ensures Stands(t)
  {
    forall k | k in t.calls ensures CallStands(t, k) {
      assert CallStands(s, k);
    }
    forall c | 0 <= c < |t.flight.channels| ensures ChannelStands(t, c) {
      assert ChannelStands(s, c);
    }
  }

  lemma MarkStands(s: State)
    requires Stands(s)
    ensures Stands(Next(s, MarkStale).value)
  {
    var t := Next(s, MarkStale).value;
    forall k | k in t.calls ensures CallStands(t, k) {
      assert CallStands(s, k);
    }
    forall c | 0 <= c < |t.flight.channels| ensures ChannelStands(t, c) {
      assert ChannelStands(s, c);
    }
  }

  lemma BeginStands(s: State, id: nat)
    requires Stands(s) && id !in s.calls
    ensures Stands(Next(s, Begin(id)).value)
  {
    var t := Next(s, Begin(id)).value;
    forall k | k in t.calls ensures CallStands(t, k) {
      assert k != id ==> CallStands(s, k);
    }
    forall c | 0 <= c < |t.flight.channels| ensures ChannelStands(t, c) {
      assert ChannelStands(s, c);
    }
  }

  lemma ClaimStands(s: State, id: nat)
    requires Stands(s) && Next(s, Claim(id)).Some?
    ensures Stands(Next(s, Claim(id)).value)
  {
    hide LookStep, RefreshStep, DropStep;
    var t := Next(s, Claim(id)).value;
    forall k | k in t.calls ensures CallStands(t, k) {
      assert CallStands(s, k);
    }
    forall c | 0 <= c < |t.flight.channels| ensures ChannelStands(t, c) {
      assert c < |s.flight.channels| ==> ChannelStands(s, c);
    }
  }

  lemma ClearStands(s: State, id: nat)
    requires Stands(s) && Next(s, Clear(id)).Some?
    ensures Stands(Next(s, Clear(id)).value)
  {
    var t := Next(s, Clear(id)).value;
    assert CallStands(s, id);
    forall k | k in t.calls ensures CallStands(t, k) {
      assert CallStands(s, k);
    }
    forall c | 0 <= c < |t.flight.channels| ensures ChannelStands(t, c) {
      assert ChannelStands(s, c);
    }
  }

  lemma SendStands(s: State, id: nat)
    requires Stands(s) && Next(s, Send(id)).Some?
    ensures Stands(Next(s, Send(id)).value)
  {
    hide LookStep, RefreshStep, DropStep;
    var t := Next(s, Send(id)).value;
    assert CallStands(s, id);
    forall k | k in t.calls ensures CallStands(t, k) {
      assert CallStands(s, k);
    }
    forall c | 0 <= c < |t.flight.channels| ensures ChannelStands(t, c) {
      assert ChannelStands(s, c);
    }
  }

  /** A follower that leaves, awake or dropped. */
  lemma LeaveStands(s: State, t: State, id: nat, c: nat, phase: Phase)
    requires Stands(s) && id in s.calls && s.calls[id].phase == Following(c) && c < |s.flight.channels|
    requires PartOf(phase) == Outside
    requires t.calls == s.calls[id := s.calls[id].(phase := phase)] && t.flight == Left(s.flight, c, id)
    ensures Stands(t)
  {
    forall k | k in t.calls ensures CallStands(t, k) {
      assert CallStands(s, k);
    }
    forall d | 0 <= d < |t.flight.channels| ensures ChannelStands(t, d) {
      assert ChannelStands(s, d);
    }
  }

  /** Steps that leave the slot and the channels alone. */
  predicate IsQuiet(step: Step) {
    step.Enter? || step.LoadForce? || step.CheckFast? || step.Swap? || step.Read? || step.CheckCache? || step.Post?
    || step.Write? || step.Restore?
  }

  /** Of the calls, at most the phase of one is another. */
  predicate MovesOne(s: State, t: State, id: nat) {
    id in s.calls && id in t.calls && t.calls == s.calls[id := s.calls[id].(phase := t.calls[id].phase)]
  }

  lemma LookMoves(s: State, id: nat, step: Step)
    requires id in s.calls && LookStep(s, id, step).Some?
    ensures var t := LookStep(s, id, step).value;
            MovesOne(s, t, id) && t.flight == s.flight && PartOf(t.calls[id].phase) == PartOf(s.calls[id].phase)
  {
  }

  lemma RefreshMoves(s: State, id: nat, step: Step)
    requires id in s.calls && RefreshStep(s, id, step).Some?
    ensures var t := RefreshStep(s, id, step).value;
            MovesOne(s, t, id) && t.flight == s.flight && PartOf(t.calls[id].phase) == PartOf(s.calls[id].phase)
            && (!step.Write? ==> t.cache == s.cache)
  {
  }

  lemma DropMoves(s: State, id: nat)
    requires id in s.calls && IsFlight(s.flight) && DropStep(s, id).Some?
    ensures var t := DropStep(s, id).value;
            && MovesOne(s, t, id) && t.cache == s.cache
            && (PartOf(s.calls[id].phase).Leads? ==> t.flight == s.flight && PartOf(t.calls[id].phase) == PartOf(s.calls[id].phase))
  {
  }

  lemma QuietKeepsPart(s: State, step: Step)
    requires IsQuiet(step) && Next(s, step).Some?
    ensures var t := Next(s, step).value;
            && MovesOne(s, t, step.id) && t.flight == s.flight
            && PartOf(t.calls[step.id].phase) == PartOf(s.calls[step.id].phase)
  {
    hide LookStep, ChannelStep, RefreshStep, DropStep;
    if step.Enter? || step.LoadForce? || step.CheckFast? {
      LookMoves(s, step.id, step);
    } else {
      RefreshMoves(s, step.id, step);
    }
  }

  lemma DropStands(s: State, id: nat)
    requires Stands(s) && Next(s, Drop(id)).Some?
    ensures Stands(Next(s, Drop(id)).value)
  {
    hide LookStep, RefreshStep, ChannelStep;
    var t := Next(s, Drop(id)).value;
    if s.calls[id].phase.Following? {
      LeaveStands(s, t, id, s.calls[id].phase.c, Gone);
    } else {
      SamePart(s, t, id);
    }
  }

  lemma WakeStands(s: State, id: nat)
    requires Stands(s) && Next(s, Wake(id)).Some?
    ensures Stands(Next(s, Wake(id)).value)
  {
    var t := Next(s, Wake(id)).value;
    LeaveStands(s, t, id, s.calls[id].phase.c, t.calls[id].phase);
  }

  lemma StepStands(s: State, step: Step)
    requires Stands(s) && Next(s, step).Some?
    ensures Stands(Next(s, step).value)
  {
    hide CallStep, Stands;
    match step
    case MarkStale => MarkStands(s);
    case Begin(id) => BeginStands(s, id);
    case Claim(id) => ClaimStands(s, id);
    case Clear(id) => ClearStands(s, id);
    case Send(id) => SendStands(s, id);
    case Wake(id) => WakeStands(s, id);
    case Drop(id) => DropStands(s, id);
    case _ =>
      QuietKeepsPart(s, step);
      SamePart(s, Next(s, step).value, step.id);
  }

  lemma {:induction false} RunStands(force: bool, steps: seq<Step>)
    requires Run(force, steps).Some?
    ensures Stands(Run(force, steps).value)
  {
    if steps != [] {
      RunStands(force, steps[..|steps| - 1]);
      StepStands(Run(force, steps[..|steps| - 1]).value, steps[|steps| - 1]);
    }
  }

  /**
   Single flight: in every run the slot is taken exactly while some call leads and has not cleared it yet, and it is
   then the only one.
   */
  lemma OneLeader(force: bool, steps: seq<Step>)
    requires Run(force, steps).Some?
    ensures var s := Run(force, steps).value;
            && (Busy(s.flight) <==> exists id :: id in s.calls && PartOf(s.calls[id].phase).Leads?)
            && (forall a, b :: a in s.calls && b in s.calls && PartOf(s.calls[a].phase).Leads? && PartOf(s.calls[b].phase).Leads? ==> a == b)
  {
    var s := Run(force, steps).value;
    RunStands(force, steps);
    forall id | id in s.calls ensures CallStands(s, id) {}
    if s.flight.slot.Some? {
      var leader := s.flight.channels[s.flight.slot.value].leader;
      assert leader in s.calls && PartOf(s.calls[leader].phase).Leads?;
    }
  }

  /** A leader that clears the slot clears its own entry. */
  lemma ClearsOwnSlot(force: bool, steps: seq<Step>, id: nat)
    requires Run(force, steps).Some? && Next(Run(force, steps).value, Clear(id)).Some?
    ensures var s := Run(force, steps).value;
            s.flight.slot == Some(s.calls[id].phase.c) && s.flight.channels[s.calls[id].phase.c].leader == id
  {
    RunStands(force, steps);
    assert CallStands(Run(force, steps).value, id);
  }

  /**
   A follower whose leader is done wakes with that leader's answer, never with a cancellation; while it waits, its leader
   leads or is about to send.
   */
  lemma FollowersGetTheAnswer(force: bool, steps: seq<Step>, id: nat)
    requires Run(force, steps).Some?
    requires id in Run(force, steps).value.calls && Run(force, steps).value.calls[id].phase.Following?
    ensures var s := Run(force, steps).value;
            var c := s.calls[id].phase.c;
            && c < |s.flight.channels| && s.flight.channels[c].leader in s.calls
            && match s.calls[s.flight.channels[c].leader].phase
               case Led(Ok(token)) => Poll(s.flight, c, SenderGone(s, c)) == Some(Ok(token))
               case Led(Err(e)) => Poll(s.flight, c, SenderGone(s, c)) == Some(Err(TokenProvider(e.message)))
               case phase =>
                 Poll(s.flight, c, SenderGone(s, c)) == None && (PartOf(phase) == Leads(c) || PartOf(phase).Sends?)
  {
    var s := Run(force, steps).value;
    var c := s.calls[id].phase.c;
    RunStands(force, steps);
    assert CallStands(s, id);
    assert ChannelStands(s, c);
  }

  // ---- stale marks ----

  /** When the cached token was asked for; 0 without one. */
  function Since(s: State): nat {
    match s.cache
    case Some(token) => token.since
    case None => 0
  }

  /** The phases in which a call still owes the refresh it took the force flag for. */
  predicate Owing(phase: Phase) {
    match phase
    case Swapped(_, force) => force
    case Reading(_, force) => force
    case Posting(_, force, _) => force
    case Writing(_, force, _) => force
    case Finishing(_, force, answer) => force && answer.Err?
    case _ => false
  }

  /** Where the call that has the slot stands. */
  function LeaderPhase(s: State): Option<Phase> {
    if s.flight.slot.Some? && s.flight.slot.value < |s.flight.channels| then
      var leader := s.flight.channels[s.flight.slot.value].leader;
      if leader in s.calls then Some(s.calls[leader].phase) else None
    else None
  }

  /** Does the live leader owe a forced refresh? */
  predicate Owed(s: State) {
    LeaderPhase(s).Some? && Owing(LeaderPhase(s).value)
  }

  /** A mark newer than the cached token, with nothing left to remember it. */
  predicate Forgotten(s: State) {
    s.marked > Since(s) && !s.force && !Owed(s)
  }

  /** A forced refresh that began after time `m` and has not been stored. */
  predicate UnderwaySince(phase: Phase, m: nat) {
    match phase
    case Swapped(_, force) => force
    case Reading(_, force) => force
    case Posting(_, force, sent) => force && sent > m
    case Writing(_, force, got) => force && got.since > m
    case _ => false
  }

  predicate Underway(s: State, m: nat) {
    LeaderPhase(s).Some? && UnderwaySince(LeaderPhase(s).value, m)
  }

  predicate NewerThan(since: nat, m: nat) {
    m == 0 || since > m
  }

  predicate PostTimed(s: State, sent: nat) {
    Since(s) < sent <= s.clock && sent != s.marked && (s.marked > sent ==> s.force)
  }

  predicate CallTimed(s: State, id: nat)
    requires id in s.calls
  {
    var call := s.calls[id];
    call.begun <= s.marked &&
    match call.phase
    case Posting(_, _, sent) => PostTimed(s, sent)
    case Writing(_, _, got) => PostTimed(s, got.since)
    case Finishing(_, force, Err(_)) => force ==> s.failed
    case Guarded => id in s.readers
    case Unforced => id in s.readers
    case _ => true
  }

  ghost predicate Timed(s: State) {
    && Since(s) <= s.clock && s.marked <= s.clock
    && (s.marked > 0 ==> s.marked != Since(s))
    && (s.lost || !Forgotten(s))
    && (forall id :: id in s.calls ==> CallTimed(s, id))
  }

  /** The leader of the slot is the only call in a leading phase. */
  lemma LeaderIs(s: State, id: nat)
    requires Stands(s) && id in s.calls && PartOf(s.calls[id].phase).Leads?
    ensures s.flight.slot.Some? && LeaderPhase(s) == Some(s.calls[id].phase)
    ensures forall k :: k in s.calls && PartOf(s.calls[k].phase).Leads? ==> k == id
  {
  }

  lemma NobodyLeads(s: State)
    requires Stands(s) && s.flight.slot.None?
    ensures forall k :: k in s.calls ==> !PartOf(s.calls[k].phase).Leads?
  {
  }

  /** What a call that does not move needs of a step. */
  predicate Calm(s: State, t: State) {
    && s.marked == t.marked && s.clock <= t.clock
    && Since(t) == Since(s)
    && (s.force ==> t.force)
    && (s.failed ==> t.failed) && (s.lost ==> t.lost)
  }

  lemma CalmKeepsCall(s: State, t: State, id: nat, k: nat)
    requires Calm(s, t) && k in s.calls && k in t.calls && t.calls[k] == s.calls[k] && k != id
    requires CallTimed(s, k)
    requires s.readers - {id} <= t.readers
    ensures CallTimed(t, k)
  {
  }

  lemma MarkTimed(s: State)
    requires Timed(s)
    ensures Timed(Next(s, MarkStale).value)
  {
  }

  lemma BeginTimed(s: State, id: nat)
    requires Stands(s) && Timed(s) && id !in s.calls
    ensures Timed(Next(s, Begin(id)).value)
  {
  }

  /** Steps of a call that is not the leader and stays out of the slot. */
  lemma BystanderTimed(s: State, t: State, id: nat)
    requires Stands(s) && Timed(s) && Calm(s, t)
    requires id in s.calls && t.calls.Keys == s.calls.Keys && t.calls[id].begun == s.calls[id].begun
    requires forall k :: k in s.calls && k != id ==> t.calls[k] == s.calls[k]
    requires s.readers - {id} <= t.readers
    requires t.force == s.force && LeaderPhase(t) == LeaderPhase(s)
    requires CallTimed(t, id)
    ensures Timed(t)
  {
    forall k | k in t.calls ensures CallTimed(t, k) {
      if k != id {
        CalmKeepsCall(s, t, id, k);
      }
    }
  }

  /** The step of a call that leaves the slot, the leaders of the channels, the token and the marks alone. */
  predicate Aside(s: State, t: State, id: nat) {
    && MovesOne(s, t, id) && s.readers - {id} <= t.readers
    && t.flight.slot == s.flight.slot && |t.flight.channels| == |s.flight.channels|
    && (forall c :: 0 <= c < |s.flight.channels| ==> t.flight.channels[c].leader == s.flight.channels[c].leader)
    && t == s.(calls := t.calls, flight := t.flight, readers := t.readers)
  }

  lemma LookAside(s: State, id: nat, step: Step)
    requires id in s.calls && LookStep(s, id, step).Some?
    ensures Aside(s, LookStep(s, id, step).value, id) && !PartOf(s.calls[id].phase).Leads?
  {
  }

  lemma ChannelAside(s: State, id: nat, step: Step)
    requires id in s.calls && IsFlight(s.flight) && (step.Send? || step.Wake?) && ChannelStep(s, id, step).Some?
    ensures Aside(s, ChannelStep(s, id, step).value, id) && !PartOf(s.calls[id].phase).Leads?
  {
  }

  lemma DropAside(s: State, id: nat)
    requires id in s.calls && IsFlight(s.flight) && DropStep(s, id).Some? && !PartOf(s.calls[id].phase).Leads?
    ensures Aside(s, DropStep(s, id).value, id)
  {
  }

  /** Steps of calls that do not lead, but for the claim and the clearing of the slot. */
  predicate IsAside(s: State, step: Step) {
    || step.Enter? || step.LoadForce? || step.CheckFast? || step.Send? || step.Wake?
    || (step.Drop? && (step.id in s.calls ==> !PartOf(s.calls[step.id].phase).Leads?))
  }

  lemma StepAside(s: State, step: Step)
    requires IsAside(s, step) && Next(s, step).Some?
    ensures Aside(s, Next(s, step).value, step.id) && !PartOf(s.calls[step.id].phase).Leads?
  {
    hide LookStep, ChannelStep, RefreshStep, DropStep, Aside;
    if step.Drop? {
      DropAside(s, step.id);
    } else if step.Send? || step.Wake? {
      ChannelAside(s, step.id, step);
    } else {
      LookAside(s, step.id, step);
    }
  }

  lemma AsideKeepsLeader(s: State, step: Step)
    requires Stands(s) && IsAside(s, step) && Next(s, step).Some?
    ensures Aside(s, Next(s, step).value, step.id) && LeaderPhase(Next(s, step).value) == LeaderPhase(s)
  {
    hide Next;
    StepAside(s, step);
  }

  lemma EnterTimed(s: State, id: nat)
    requires Stands(s) && Timed(s) && Next(s, Enter(id)).Some?
    ensures Timed(Next(s, Enter(id)).value)
  {
    var t := Next(s, Enter(id)).value;
    assert CallTimed(s, id);
    OutsiderKeepsLeader(s, t, id);
    BystanderTimed(s, t, id);
  }

  lemma OutsiderKeepsLeader(s: State, t: State, id: nat)
    requires Stands(s) && id in s.calls && !PartOf(s.calls[id].phase).Leads?
    requires t.calls.Keys == s.calls.Keys && t.flight == s.flight
    requires forall k :: k in s.calls && k != id ==> t.calls[k] == s.calls[k]
    ensures LeaderPhase(t) == LeaderPhase(s)
  {
  }

  lemma LoadTimed(s: State, id: nat)
    requires Stands(s) && Timed(s) && Next(s, LoadForce(id)).Some?
    ensures Timed(Next(s, LoadForce(id)).value)
  {
    var t := Next(s, LoadForce(id)).value;
    assert CallTimed(s, id);
    OutsiderKeepsLeader(s, t, id);
    BystanderTimed(s, t, id);
  }

  lemma CheckFastTimed(s: State, id: nat, valid: bool)
    requires Stands(s) && Timed(s) && Next(s, CheckFast(id, valid)).Some?
    ensures Timed(Next(s, CheckFast(id, valid)).value)
  {
    var t := Next(s, CheckFast(id, valid)).value;
    assert CallTimed(s, id);
    OutsiderKeepsLeader(s, t, id);
    BystanderTimed(s, t, id);
  }

  /** A step of the leader that stores nothing: nobody else leads, so only its own times and what it owes matter. */
  lemma LeaderTimed(s: State, t: State, id: nat, p: Phase)
    requires Stands(s) && Timed(s) && id in s.calls && PartOf(s.calls[id].phase).Leads? && PartOf(p).Leads?
    requires t.flight == s.flight && t.calls == s.calls[id := s.calls[id].(phase := p)] && t.cache == s.cache
    requires s.marked == t.marked && s.clock <= t.clock && (s.failed ==> t.failed) && (s.lost ==> t.lost)
    requires s.readers - {id} <= t.readers
    requires CallTimed(t, id)
    requires t.lost || t.marked <= Since(t) || t.force || Owing(p)
    ensures Timed(t)
  {
  }

  lemma SwapTimed(s: State, id: nat)
    requires Stands(s) && Timed(s) && Next(s, Swap(id)).Some?
    ensures Timed(Next(s, Swap(id)).value)
  {
  }

  lemma ReadTimed(s: State, id: nat)
    requires Stands(s) && Timed(s) && Next(s, Read(id)).Some?
    ensures Timed(Next(s, Read(id)).value)
  {
  }

  lemma CheckCacheTimed(s: State, id: nat, valid: bool)
    requires Stands(s) && Timed(s) && Next(s, CheckCache(id, valid)).Some?
    ensures Timed(Next(s, CheckCache(id, valid)).value)
  {
    hide LookStep, ChannelStep, DropStep;
    var t := Next(s, CheckCache(id, valid)).value;
    LeaderIs(s, id);
    assert CallTimed(s, id);
    LeaderTimed(s, t, id, t.calls[id].phase);
  }

  lemma PostEndTimed(s: State, id: nat, result: Result<string, AuthError>)
    requires Stands(s) && Timed(s) && Next(s, Post(id, result)).Some?
    ensures Timed(Next(s, Post(id, result)).value)
  {
    var t := Next(s, Post(id, result)).value;
    LeaderIs(s, id);
    assert CallTimed(s, id);
    LeaderTimed(s, t, id, t.calls[id].phase);
  }

  lemma RestoreTimed(s: State, id: nat)
    requires Stands(s) && Timed(s) && Next(s, Restore(id)).Some?
    ensures Timed(Next(s, Restore(id)).value)
  {
  }

  lemma AbortTimed(s: State, id: nat)
    requires Stands(s) && Timed(s) && Next(s, Drop(id)).Some? && PartOf(s.calls[id].phase).Leads?
    ensures Timed(Next(s, Drop(id)).value)
  {
    var t := Next(s, Drop(id)).value;
    LeaderIs(s, id);
    assert CallTimed(s, id);
    LeaderTimed(s, t, id, t.calls[id].phase);
  }

  /** Storing needs the lock for itself, so no fast path stands between its look at the flag and its look at the slot. */
  lemma WriteTimed(s: State, id: nat)
    requires Stands(s) && Timed(s) && Next(s, Write(id)).Some?
    ensures Timed(Next(s, Write(id)).value)
  {
  }

  lemma ClaimTimed(s: State, id: nat)
    requires Stands(s) && Timed(s) && Next(s, Claim(id)).Some?
    ensures Timed(Next(s, Claim(id)).value)
  {
    hide LookStep, RefreshStep, DropStep;
    var t := Next(s, Claim(id)).value;
    assert CallTimed(s, id);
    if s.flight.slot.None? {
      NobodyLeads(s);
      assert LeaderPhase(t) == Some(t.calls[id].phase);
    } else {
      assert LeaderPhase(t) == LeaderPhase(s);
    }
    forall k | k in t.calls ensures CallTimed(t, k) {
      if k != id {
        assert CallTimed(s, k);
      }
    }
  }

  lemma ClearTimed(s: State, id: nat)
    requires Stands(s) && Timed(s) && Next(s, Clear(id)).Some?
    ensures Timed(Next(s, Clear(id)).value)
  {
  }

  lemma SendTimed(s: State, id: nat)
    requires Stands(s) && Timed(s) && Next(s, Send(id)).Some?
    ensures Timed(Next(s, Send(id)).value)
  {
    var t := Next(s, Send(id)).value;
    assert CallStands(s, id) && CallTimed(s, id);
    LeaderStays(s, t, id);
    BystanderTimed(s, t, id);
  }

  lemma LeaderStays(s: State, t: State, id: nat)
    requires Stands(s) && id in s.calls && !PartOf(s.calls[id].phase).Leads?
    requires t.calls.Keys == s.calls.Keys && t.flight.slot == s.flight.slot
    requires |t.flight.channels| == |s.flight.channels|
    requires forall c :: 0 <= c < |s.flight.channels| ==> t.flight.channels[c].leader == s.flight.channels[c].leader
    requires forall k :: k in s.calls && k != id ==> t.calls[k] == s.calls[k]
    ensures LeaderPhase(t) == LeaderPhase(s)
  {
  }

  lemma Leaves(s: State, step: Step)
    requires step.Wake? || (step.Drop? && (step.id in s.calls ==> !PartOf(s.calls[step.id].phase).Leads?))
    requires Next(s, step).Some? && step.id in Next(s, step).value.calls
    ensures var p := Next(s, step).value.calls[step.id].phase; p.Followed? || p.Gone?
  {
  }

  lemma LeaveTimed(s: State, step: Step)
    requires Stands(s) && Timed(s) && Next(s, step).Some?
    requires step.Wake? || (step.Drop? && !PartOf(s.calls[step.id].phase).Leads?)
    ensures Timed(Next(s, step).value)
  {
    hide Next, LeaderPhase;
    AsideKeepsLeader(s, step);
    assert CallTimed(s, step.id);
    Leaves(s, step);
    BystanderTimed(s, Next(s, step).value, step.id);
  }

  lemma StepTimed(s: State, step: Step)
    requires Stands(s) && Timed(s) && Next(s, step).Some?
    ensures Timed(Next(s, step).value)
  {
    match step
    case MarkStale => MarkTimed(s);
    case Begin(id) => BeginTimed(s, id);
    case Enter(id) => EnterTimed(s, id);
    case LoadForce(id) => LoadTimed(s, id);
    case CheckFast(id, valid) => CheckFastTimed(s, id, valid);
    case Claim(id) => ClaimTimed(s, id);
    case Swap(id) => SwapTimed(s, id);
    case Read(id) => ReadTimed(s, id);
    case CheckCache(id, valid) => CheckCacheTimed(s, id, valid);
    case Post(id, result) => PostEndTimed(s, id, result);
    case Write(id) => WriteTimed(s, id);
    case Restore(id) => RestoreTimed(s, id);
    case Clear(id) => ClearTimed(s, id);
    case Send(id) => SendTimed(s, id);
    case Wake(id) => LeaveTimed(s, step);
    case Drop(id) =>
      if PartOf(s.calls[id].phase).Leads? {
        AbortTimed(s, id);
      } else {
        LeaveTimed(s, step);
      }
  }

  lemma {:induction false} RunTimed(force: bool, steps: seq<Step>)
    requires Run(force, steps).Some?
    ensures Timed(Run(force, steps).value)
  {
    if steps != [] {
      var front := steps[..|steps| - 1];
      RunTimed(force, front);
      RunStands(force, front);
      StepTimed(Run(force, front).value, steps[|steps| - 1]);
    }
  }

  /**
   In every run in which no leader that held the force flag was dropped, a mark newer than the cached token is
   remembered: the flag is up, or the live leader owes the refresh it took the flag for.
   */
  lemma MarkIsRemembered(force: bool, steps: seq<Step>)
    requires Run(force, steps).Some?
    ensures var s := Run(force, steps).value;
            s.lost || s.marked <= Since(s) || s.force || Owed(s)
  {
    RunTimed(force, steps);
  }

  // ---- the fast path ----

  /** The cached token was not asked for after every mark that came before the call. */
  predicate Stale(s: State, id: nat)
    requires id in s.calls
  {
    !NewerThan(Since(s), s.calls[id].begun)
  }

  /** The leader's forced POST failed and the flag is not up again yet. */
  predicate LeaderFailed(s: State) {
    match LeaderPhase(s)
    case Some(Finishing(_, force, Err(_))) => force
    case _ => false
  }

  /** Does the step end a forced refresh without a token? */
  predicate GivesUp(s: State, step: Step) {
    match step
    case Post(id, Err(_)) => id in s.calls && s.calls[id].phase.Posting? && s.calls[id].phase.force
    case Drop(id) => id in s.calls && Owing(s.calls[id].phase)
    case _ => false
  }

  /** The calls between their look at the flag and their look at the slot, while the cached token is stale for them. */
  function StaleWaiters(s: State): set<nat> {
    set id | id in s.calls && s.calls[id].phase.Unforced? && Stale(s, id)
  }

  /**
   The calls a mark slips past at a step: one that finds the flag down although its mark is unanswered, because the mark
   was forgotten or the leader that took it has just failed; and those that found it down while a leader owed the
   refresh, when that leader fails or is dropped.
   */
  function SlipsAt(s: State, step: Step): set<nat> {
    if step.LoadForce? && step.id in s.calls && !s.force && Stale(s, step.id) && (Forgotten(s) || LeaderFailed(s)) then {step.id}
    else if GivesUp(s, step) then StaleWaiters(s)
    else {}
  }

  function Slipped(force: bool, steps: seq<Step>): set<nat> {
    if steps == [] then {}
    else
      var n := |steps| - 1;
      Slipped(force, steps[..n]) + match Run(force, steps[..n]) case Some(s) => SlipsAt(s, steps[n]) case None => {}
  }

  predicate CallCovered(s: State, slipped: set<nat>, id: nat)
    requires id in s.calls
  {
    match s.calls[id].phase
    case Entering => id !in slipped
    case Guarded => id !in slipped
    case Unforced => if id in slipped then Stale(s, id) else !Stale(s, id) || Underway(s, s.calls[id].begun)
    case Fast(token) => id in slipped <==> !NewerThan(token.since, s.calls[id].begun)
    case _ => true
  }

  ghost predicate Covered(s: State, slipped: set<nat>) {
    slipped <= s.calls.Keys && forall id :: id in s.calls ==> CallCovered(s, slipped, id)
  }

  /** A call that finds the flag down is covered by its token, by a refresh under way, or slips. */
  lemma LoadCovers(s: State, slipped: set<nat>, id: nat)
    requires Stands(s) && Timed(s) && Covered(s, slipped) && Next(s, LoadForce(id)).Some?
    ensures Covered(Next(s, LoadForce(id)).value, slipped + SlipsAt(s, LoadForce(id)))
  {
    hide ChannelStep, RefreshStep, DropStep;
    var t := Next(s, LoadForce(id)).value;
    assert CallCovered(s, slipped, id) && CallTimed(s, id);
    OutsiderKeepsLeader(s, t, id);
    if !s.force && Stale(s, id) && Owed(s) {
      var leader := s.flight.channels[s.flight.slot.value].leader;
      assert CallTimed(s, leader);
    }
    forall k | k in t.calls ensures CallCovered(t, slipped + SlipsAt(s, LoadForce(id)), k) {
      assert CallCovered(s, slipped, k);
    }
  }

  /** What a step must keep for the calls that do not move. */
  predicate KeepsCover(s: State, t: State, id: nat) {
    && t.calls.Keys == s.calls.Keys && id in s.calls && t.calls[id].begun == s.calls[id].begun
    && Since(t) == Since(s)
    && forall k :: k in s.calls && k != id ==> t.calls[k] == s.calls[k]
  }

  lemma OutsideCovers(s: State, t: State, id: nat, slipped: set<nat>)
    requires Covered(s, slipped) && KeepsCover(s, t, id) && LeaderPhase(t) == LeaderPhase(s)
    requires CallCovered(t, slipped, id)
    ensures Covered(t, slipped)
  {
    forall k | k in t.calls ensures CallCovered(t, slipped, k) {
      if k != id {
        assert CallCovered(s, slipped, k);
      }
    }
  }

  /** A leader that goes on with a forced refresh covers the calls it covered. */
  lemma LeaderCovers(s: State, t: State, id: nat, slipped: set<nat>)
    requires Stands(s) && Timed(s) && Covered(s, slipped) && KeepsCover(s, t, id) && t.flight == s.flight
    requires PartOf(s.calls[id].phase).Leads? && PartOf(t.calls[id].phase).Leads?
    requires forall m: nat :: m <= s.marked && UnderwaySince(s.calls[id].phase, m) ==> UnderwaySince(t.calls[id].phase, m)
    ensures Covered(t, slipped)
  {
    LeaderIs(s, id);
    forall k | k in t.calls ensures CallCovered(t, slipped, k) {
      if k != id {
        assert CallCovered(s, slipped, k) && CallTimed(s, k);
      }
    }
  }

  /** When a forced refresh is given up, the calls it covered slip. */
  lemma GivingUpSlips(s: State, t: State, id: nat, slipped: set<nat>)
    requires Stands(s) && Covered(s, slipped) && KeepsCover(s, t, id) && t.flight == s.flight
    requires PartOf(s.calls[id].phase).Leads? && PartOf(t.calls[id].phase).Leads?
    ensures Covered(t, slipped + StaleWaiters(s))
  {
    forall k | k in t.calls ensures CallCovered(t, slipped + StaleWaiters(s), k) {
      if k != id {
        assert CallCovered(s, slipped, k);
      }
    }
  }

  /** Storing needs the lock for itself, so no call stands between its two looks. */
  lemma WriteCovers(s: State, id: nat, slipped: set<nat>)
    requires Stands(s) && Timed(s) && Covered(s, slipped) && Next(s, Write(id)).Some?
    ensures Covered(Next(s, Write(id)).value, slipped)
  {
    var t := Next(s, Write(id)).value;
    forall k | k in t.calls ensures CallCovered(t, slipped, k) {
      if k != id {
        assert CallCovered(s, slipped, k) && CallTimed(s, k);
      }
    }
  }

  lemma ClaimCovers(s: State, id: nat, slipped: set<nat>)
    requires Stands(s) && Covered(s, slipped) && Next(s, Claim(id)).Some?
    ensures Covered(Next(s, Claim(id)).value, slipped)
  {
    var t := Next(s, Claim(id)).value;
    if s.flight.slot.Some? {
      assert LeaderPhase(t) == LeaderPhase(s);
    }
    forall k | k in t.calls ensures CallCovered(t, slipped, k) {
      if k != id {
        assert CallCovered(s, slipped, k);
      }
    }
  }

  lemma ClearCovers(s: State, id: nat, slipped: set<nat>)
    requires Stands(s) && Covered(s, slipped) && Next(s, Clear(id)).Some?
    ensures Covered(Next(s, Clear(id)).value, slipped)
  {
    var t := Next(s, Clear(id)).value;
    LeaderIs(s, id);
    forall k | k in t.calls ensures CallCovered(t, slipped, k) {
      if k != id {
        assert CallCovered(s, slipped, k);
      }
    }
  }

  lemma MarkOrBeginCovers(s: State, step: Step, slipped: set<nat>)
    requires Stands(s) && Covered(s, slipped) && (step.MarkStale? || step.Begin?) && Next(s, step).Some?
    ensures Covered(Next(s, step).value, slipped)
  {
    var t := Next(s, step).value;
    assert LeaderPhase(t) == LeaderPhase(s);
    forall k | k in t.calls ensures CallCovered(t, slipped, k) {
      if k in s.calls {
        assert CallCovered(s, slipped, k);
      }
    }
  }

  lemma CheckFastCovers(s: State, id: nat, valid: bool, slipped: set<nat>)
    requires Stands(s) && Covered(s, slipped) && Next(s, CheckFast(id, valid)).Some?
    ensures Covered(Next(s, CheckFast(id, valid)).value, slipped)
  {
    var t := Next(s, CheckFast(id, valid)).value;
    assert CallCovered(s, slipped, id);
    OutsiderKeepsLeader(s, t, id);
    OutsideCovers(s, t, id, slipped);
  }

  lemma AsideLooksAway(s: State, step: Step)
    requires step.Enter? || step.Send? || step.Wake? || (step.Drop? && (step.id in s.calls ==> !PartOf(s.calls[step.id].phase).Leads?))
    requires Next(s, step).Some? && step.id in Next(s, step).value.calls
    ensures var p := Next(s, step).value.calls[step.id].phase;
            !p.Entering? && !p.Unforced? && !p.Fast? && (p.Guarded? ==> s.calls[step.id].phase.Entering?)
  {
  }

  /** Steps of calls that neither lead nor look. */
  lemma OthersCover(s: State, step: Step, slipped: set<nat>)
    requires Stands(s) && Covered(s, slipped) && Next(s, step).Some?
    requires step.Enter? || step.Send? || step.Wake? || (step.Drop? && !PartOf(s.calls[step.id].phase).Leads?)
    ensures Covered(Next(s, step).value, slipped)
  {
    hide Next, LeaderPhase;
    AsideKeepsLeader(s, step);
    AsideLooksAway(s, step);
    assert CallCovered(s, slipped, step.id);
    OutsideCovers(s, Next(s, step).value, step.id, slipped);
  }

  predicate IsLeaderStep(s: State, step: Step) {
    && (step.Swap? || step.Read? || step.CheckCache? || step.Post? || step.Restore? || step.Drop?)
    && step.id in s.calls && PartOf(s.calls[step.id].phase).Leads?
  }

  lemma LeaderStepKeeps(s: State, step: Step)
    requires IsLeaderStep(s, step) && Next(s, step).Some?
    ensures var t := Next(s, step).value;
            KeepsCover(s, t, step.id) && t.flight == s.flight && PartOf(t.calls[step.id].phase).Leads?
  {
    hide LookStep, ChannelStep, RefreshStep, DropStep;
    if step.Drop? {
      DropMoves(s, step.id);
    } else {
      RefreshMoves(s, step.id, step);
    }
  }

  lemma LeaderStepGoesOn(s: State, step: Step, m: nat)
    requires Timed(s) && IsLeaderStep(s, step) && Next(s, step).Some? && !GivesUp(s, step)
    requires m <= s.marked && UnderwaySince(s.calls[step.id].phase, m)
    ensures UnderwaySince(Next(s, step).value.calls[step.id].phase, m)
  {
  }

  lemma LeaderStepCovers(s: State, step: Step, slipped: set<nat>)
    requires Stands(s) && Timed(s) && Covered(s, slipped) && IsLeaderStep(s, step) && Next(s, step).Some?
    ensures Covered(Next(s, step).value, slipped + SlipsAt(s, step))
  {
    hide Next, Covered, Timed, Stands, GivesUp, StaleWaiters;
    var t := Next(s, step).value;
    LeaderStepKeeps(s, step);
    if GivesUp(s, step) {
      GivingUpSlips(s, t, step.id, slipped);
    } else {
      forall m: nat | m <= s.marked && UnderwaySince(s.calls[step.id].phase, m)
        ensures UnderwaySince(t.calls[step.id].phase, m)
      {
        LeaderStepGoesOn(s, step, m);
      }
      LeaderCovers(s, t, step.id, slipped);
      assert slipped + {} == slipped;
    }
  }

  lemma StepCovers(s: State, step: Step, slipped: set<nat>)
    requires Stands(s) && Timed(s) && Covered(s, slipped) && Next(s, step).Some?
    ensures Covered(Next(s, step).value, slipped + SlipsAt(s, step))
  {
    hide LookStep, ChannelStep, Covered, Timed, Stands;
    assert slipped + {} == slipped;
    match step
    case MarkStale => MarkOrBeginCovers(s, step, slipped);
    case Begin(_) => MarkOrBeginCovers(s, step, slipped);
    case LoadForce(id) => LoadCovers(s, slipped, id);
    case CheckFast(id, valid) => CheckFastCovers(s, id, valid, slipped);
    case Claim(id) => ClaimCovers(s, id, slipped);
    case Write(id) => WriteCovers(s, id, slipped);
    case Clear(id) => ClearCovers(s, id, slipped);
    case Enter(_) => OthersCover(s, step, slipped);
    case Send(_) => OthersCover(s, step, slipped);
    case Wake(_) => OthersCover(s, step, slipped);
    case Drop(id) =>
      if PartOf(s.calls[id].phase).Leads? {
        LeaderStepCovers(s, step, slipped);
      } else {
        OthersCover(s, step, slipped);
      }
    case _ => LeaderStepCovers(s, step, slipped);
  }

  lemma {:induction false} RunCovers(force: bool, steps: seq<Step>)
    requires Run(force, steps).Some?
    ensures Covered(Run(force, steps).value, Slipped(force, steps))
  {
    if steps != [] {
      var front := steps[..|steps| - 1];
      RunCovers(force, front);
      RunStands(force, front);
      RunTimed(force, front);
      StepCovers(Run(force, front).value, steps[|steps| - 1], Slipped(force, front));
    }
  }

  /**
   A token the fast path takes from the cache was asked for after every mark that came before the call, exactly when no
   mark slipped past the call.
   */
  lemma FastPathIsFresh(force: bool, steps: seq<Step>, id: nat)
    requires Run(force, steps).Some?
    requires id in Run(force, steps).value.calls && Run(force, steps).value.calls[id].phase.Fast?
    ensures var s := Run(force, steps).value;
            NewerThan(s.calls[id].phase.token.since, s.calls[id].begun) <==> id !in Slipped(force, steps)
  {
    RunCovers(force, steps);
    assert CallCovered(Run(force, steps).value, Slipped(force, steps), id);
  }

  /** Without a forced POST that failed and a forced leader that was dropped nothing slips. */
  lemma {:induction false} QuietRunsSlipNothing(force: bool, steps: seq<Step>)
    requires Run(force, steps).Some? && !Run(force, steps).value.failed && !Run(force, steps).value.lost
    ensures Slipped(force, steps) == {}
  {
    if steps != [] {
      var front, step := steps[..|steps| - 1], steps[|steps| - 1];
      var s := Run(force, front).value;
      FlagsOnlyRise(s, step);
      QuietRunsSlipNothing(force, front);
      RunTimed(force, front);
      RunStands(force, front);
      QuietStepsSlipNothing(s, step);
    }
  }

  lemma FlagsOnlyRise(s: State, step: Step)
    requires Next(s, step).Some?
    ensures (s.failed ==> Next(s, step).value.failed) && (s.lost ==> Next(s, step).value.lost)
    ensures GivesUp(s, step) ==> Next(s, step).value.failed || Next(s, step).value.lost
  {
  }

  lemma QuietStepsSlipNothing(s: State, step: Step)
    requires Stands(s) && Timed(s) && Next(s, step).Some? && !s.failed && !s.lost && !GivesUp(s, step)
    ensures SlipsAt(s, step) == {}
  {
  }

  // ---- how often the flag is taken ----

  function Bit(b: bool): nat {
    if b then 1 else 0
  }

  /** Does the step raise the flag: a mark, or a leader giving it back after a failure? */
  predicate Raises(s: State, step: Step) {
    step.MarkStale? || (step.Restore? && step.id in s.calls && s.calls[step.id].phase.Finishing? && Owing(s.calls[step.id].phase))
  }

  /** Does the step start a forced refresh? */
  predicate Takes(s: State, step: Step) {
    step.Swap? && s.force
  }

  function CountRaises(force: bool, steps: seq<Step>): nat {
    if steps == [] then 0
    else
      var n := |steps| - 1;
      var s := Run(force, steps[..n]);
      CountRaises(force, steps[..n]) + Bit(s.Some? && Raises(s.value, steps[n]))
  }

  function CountTakes(force: bool, steps: seq<Step>): nat {
    if steps == [] then 0
    else
      var n := |steps| - 1;
      var s := Run(force, steps[..n]);
      CountTakes(force, steps[..n]) + Bit(s.Some? && Takes(s.value, steps[n]))
  }

  lemma StepPays(s: State, step: Step)
    requires Next(s, step).Some?
    ensures Bit(Takes(s, step)) + Bit(Next(s, step).value.force) <= Bit(Raises(s, step)) + Bit(s.force)
  {
  }

  /** Every forced refresh is paid for: by the flag a run starts with, a mark, or a flag given back after a failure. */
  lemma {:induction false} MarksPayForRefreshes(force: bool, steps: seq<Step>)
    requires Run(force, steps).Some?
    ensures CountTakes(force, steps) + Bit(Run(force, steps).value.force) <= CountRaises(force, steps) + Bit(force)
  {
    if steps != [] {
      var n := |steps| - 1;
      MarksPayForRefreshes(force, steps[..n]);
      StepPays(Run(force, steps[..n]).value, steps[n]);
    }
  }

  lemma LeaderMoves(s: State, t: State, id: nat)
    requires Stands(s) && id in s.calls && PartOf(s.calls[id].phase).Leads?
    requires t.flight == s.flight && id in t.calls
    ensures LeaderPhase(t) == Some(t.calls[id].phase) && LeaderPhase(s) == Some(s.calls[id].phase)
  {
  }

  predicate MovesLeader(step: Step) {
    step.Swap? || step.Read? || step.CheckCache? || step.Post? || step.Write? || step.Restore?
  }

  /** A step of the refresh keeps an unforgotten mark: in the flag, in the token, or in what the leader owes. */
  lemma RefreshOwes(s: State, id: nat, step: Step)
    requires id in s.calls && RefreshStep(s, id, step).Some? && id in RefreshStep(s, id, step).value.calls
    requires CallTimed(s, id) && (s.marked > Since(s) && !s.force ==> Owing(s.calls[id].phase))
    ensures var t := RefreshStep(s, id, step).value;
            t.marked > Since(t) && !t.force ==> Owing(t.calls[id].phase)
  {
  }

  lemma LeaderRemembers(s: State, step: Step)
    requires Stands(s) && Timed(s) && MovesLeader(step) && Next(s, step).Some? && !Forgotten(s)
    ensures !Forgotten(Next(s, step).value)
  {
    hide LookStep, ChannelStep, DropStep, RefreshStep, LeaderPhase, Owing, Stands;
    RefreshMoves(s, step.id, step);
    RefreshLeads(s, step.id, step);
    LeaderMoves(s, Next(s, step).value, step.id);
    assert CallTimed(s, step.id);
    RefreshOwes(s, step.id, step);
  }

  lemma RefreshLeads(s: State, id: nat, step: Step)
    requires id in s.calls && RefreshStep(s, id, step).Some?
    ensures PartOf(s.calls[id].phase).Leads?
  {
  }

  lemma AsideRemembers(s: State, step: Step)
    requires Stands(s) && IsAside(s, step) && Next(s, step).Some? && !Forgotten(s)
    ensures !Forgotten(Next(s, step).value)
  {
    hide Next, LeaderPhase;
    AsideKeepsLeader(s, step);
  }

  lemma OthersRemember(s: State, step: Step)
    requires Stands(s) && Next(s, step).Some? && !Forgotten(s)
    requires !MovesLeader(step) && !(step.Drop? && PartOf(s.calls[step.id].phase).Leads?)
    ensures !Forgotten(Next(s, step).value)
  {
    var t := Next(s, step).value;
    if IsAside(s, step) {
      AsideRemembers(s, step);
    } else {
      match step
      case MarkStale =>
      case Begin(id) => assert LeaderPhase(t) == LeaderPhase(s);
      case Claim(id) => assert s.flight.slot.Some? ==> LeaderPhase(t) == LeaderPhase(s);
      case Clear(id) => LeaderIs(s, id);
    }
  }

  lemma StepForgets(s: State, step: Step)
    requires Stands(s) && Timed(s) && Next(s, step).Some? && !Forgotten(s)
    ensures Forgotten(Next(s, step).value)
       <==> step.Drop? && Owing(s.calls[step.id].phase) && s.marked > Since(s) && !s.force
  {
    if MovesLeader(step) {
      LeaderRemembers(s, step);
    } else if step.Drop? && PartOf(s.calls[step.id].phase).Leads? {
      LeaderMoves(s, Next(s, step).value, step.id);
    } else {
      OthersRemember(s, step);
    }
  }

  /** A step of a run forgets a mark exactly when it drops a leader that holds the flag nobody has raised again. */
  lemma ForgetsOnlyByDrop(force: bool, steps: seq<Step>, step: Step)
    requires Run(force, steps).Some? && !Forgotten(Run(force, steps).value)
    requires Next(Run(force, steps).value, step).Some?
    ensures var s := Run(force, steps).value;
            (Forgotten(Next(s, step).value)
            <==> step.Drop? && Owing(s.calls[step.id].phase) && s.marked > Since(s) && !s.force)
  {
    RunStands(force, steps);
    RunTimed(force, steps);
    StepForgets(Run(force, steps).value, step);
  }

  /** What holds of the empty run and is kept by every step. */
  type Record = (seq<Step>, State) -> bool

  ghost predicate IsKept(r: Record) {
    forall a: seq<Step>, s: State, step: Step :: r(a, s) && Next(s, step).Some? ==> r(a + [step], Next(s, step).value)
  }

  lemma Take(r: Record, a: seq<Step>, s: State, step: Step) returns (b: seq<Step>, t: State)
    requires IsKept(r) && r(a, s) && Next(s, step).Some?
    ensures r(b, t) && t == Next(s, step).value
  {
    b, t := a + [step], Next(s, step).value;
  }

  predicate Undisturbed(s: State, t: State) {
    t.cache == s.cache && t.clock == s.clock && t.marked == s.marked && t.failed == s.failed && t.lost == s.lost
  }

  lemma Looks(r: Record, a: seq<Step>, s: State, id: nat) returns (b: seq<Step>, t: State)
    requires IsKept(r) && r(a, s) && id !in s.calls && s.readers == {} && IsFlight(s.flight)
    ensures r(b, t) && Undisturbed(s, t) && t.flight == s.flight && t.force == s.force
    ensures t.calls == s.calls[id := Call(s.marked, if s.force then Claiming else Unforced)]
    ensures t.readers == if s.force then {} else {id}
  {
    hide IsKept, ChannelStep, RefreshStep, DropStep;
    b, t := Take(r, a, s, Begin(id));
    b, t := Take(r, b, t, Enter(id));
    b, t := Take(r, b, t, LoadForce(id));
  }

  lemma Claims(r: Record, a: seq<Step>, s: State, id: nat) returns (b: seq<Step>, t: State)
    requires IsKept(r) && r(a, s) && id in s.calls && s.calls[id].phase == Claiming && s.flight.slot == None
    ensures r(b, t) && Undisturbed(s, t) && t.flight == Claimed(s.flight, id) && !t.force
    ensures t.calls == s.calls[id := s.calls[id].(phase := Swapped(|s.flight.channels|, s.force))]
    ensures t.readers == s.readers
  {
    hide IsKept, LookStep, DropStep;
    b, t := Take(r, a, s, Claim(id));
    b, t := Take(r, b, t, Swap(id));
  }

  /** A new call that cannot use the cache takes the free slot and the flag. */
  lemma TakesLead(r: Record, a: seq<Step>, s: State, id: nat) returns (b: seq<Step>, t: State)
    requires IsKept(r) && r(a, s) && id !in s.calls && s.flight.slot == None && s.readers == {}
    requires s.force || s.cache == None
    ensures r(b, t) && Undisturbed(s, t) && t.flight == Claimed(s.flight, id) && !t.force
    ensures t.calls == s.calls[id := Call(s.marked, Swapped(|s.flight.channels|, s.force))] && t.readers == {}
  {
    b, t := Looks(r, a, s, id);
    if !s.force {
      b, t := Take(r, b, t, CheckFast(id, true));
    }
    b, t := Claims(r, b, t, id);
  }

  /** It answers as it must once its refresh has ended. */
  lemma Ends(r: Record, a: seq<Step>, s: State, id: nat, answer: Answer) returns (b: seq<Step>, t: State)
    requires IsKept(r) && r(a, s) && id in s.calls && IsFlight(s.flight) && s.flight.slot.Some?
    requires s.calls[id].phase == Ending(s.flight.slot.value, answer)
    ensures r(b, t) && Undisturbed(s, t) && t.flight.slot == None && t.force == s.force
    ensures t.calls == s.calls[id := s.calls[id].(phase := Led(answer))] && t.readers == s.readers
  {
    hide IsKept, LookStep, RefreshStep, DropStep;
    var c := s.flight.slot.value;
    b, t := Take(r, a, s, Clear(id));
    assert t.calls[id].phase == Sending(c, answer) && c < |t.flight.channels|;
    b, t := Take(r, b, t, Send(id));
  }

  lemma Posts(r: Record, a: seq<Step>, s: State, id: nat, c: nat) returns (b: seq<Step>, t: State)
    requires IsKept(r) && r(a, s) && id in s.calls && s.calls[id].phase == Swapped(c, false) && IsFlight(s.flight)
    requires s.cache == None && s.readers == {}
    ensures r(b, t) && t.flight == s.flight && t.force == s.force && t.readers == {} && t.cache == None
    ensures t.calls == s.calls[id := s.calls[id].(phase := Writing(c, false, Token("first", s.clock + 1)))]
    ensures t.clock == s.clock + 1 && t.marked == s.marked && t.failed == s.failed && t.lost == s.lost
  {
    hide IsKept, LookStep, ChannelStep, DropStep;
    b, t := Take(r, a, s, Read(id));
    b, t := Take(r, b, t, CheckCache(id, true));
    b, t := Take(r, b, t, Post(id, Ok("first")));
  }

  /** Call 0 brings the first token. */
  lemma FirstToken(r: Record) returns (a: seq<Step>, s: State)
    requires IsKept(r) && r([], Init(false))
    ensures r(a, s)
    ensures s.cache == Some(Token("first", 1)) && s.clock == 1 && s.marked == 0 && s.readers == {} && s.flight.slot == None
    ensures !s.force && !s.failed && !s.lost && s.calls.Keys == {0}
  {
    hide IsKept, LookStep, ChannelStep, DropStep;
    a, s := TakesLead(r, [], Init(false), 0);
    a, s := Posts(r, a, s, 0, 0);
    a, s := Take(r, a, s, Write(0));
    a, s := Take(r, a, s, Restore(0));
    a, s := Ends(r, a, s, 0, Ok(Token("first", 1)));
  }

  /** The token is marked stale, call 1 leads with the flag in hand and is dropped before it answers. */
  lemma DroppedInFlight(r: Record) returns (a: seq<Step>, s: State)
    requires IsKept(r) && r([], Init(false))
    ensures r(a, s)
    ensures s.cache == Some(Token("first", 1)) && s.marked == 2 && s.readers == {} && s.flight.slot == None
    ensures !s.force && !s.failed && s.calls.Keys == {0, 1}
  {
    a, s := FirstToken(r);
    a, s := Take(r, a, s, MarkStale);
    a, s := TakesLead(r, a, s, 1);
    a, s := Take(r, a, s, Drop(1));
    a, s := Ends(r, a, s, 1, Err(TokenProvider(ABORTED)));
  }

  lemma PostFails(r: Record, a: seq<Step>, s: State, id: nat, c: nat) returns (b: seq<Step>, t: State)
    requires IsKept(r) && r(a, s) && id in s.calls && s.calls[id].phase == Swapped(c, true) && IsFlight(s.flight)
    ensures r(b, t) && t.flight == s.flight && t.cache == s.cache && t.lost == s.lost && t.readers == s.readers + {id} - {id}
    ensures t.calls == s.calls[id := s.calls[id].(phase := Finishing(c, true, Err(Rejected("refused"))))]
  {
    hide IsKept, LookStep, ChannelStep, DropStep;
    b, t := Take(r, a, s, Read(id));
    b, t := Take(r, b, t, CheckCache(id, true));
    b, t := Take(r, b, t, Post(id, Err(Rejected("refused"))));
  }

  /** Call 1 takes the flag for a mark, call 2 begins after the mark and finds the flag down. */
  lemma TwoCallsAfterMark(r: Record) returns (a: seq<Step>, s: State)
    requires IsKept(r) && r([], Init(false))
    ensures r(a, s) && s.cache == Some(Token("first", 1)) && s.calls.Keys == {0, 1, 2} && !s.lost && IsFlight(s.flight)
    ensures s.calls[2] == Call(2, Unforced) && s.flight.slot.Some? && s.calls[1].phase == Swapped(s.flight.slot.value, true)
  {
    a, s := FirstToken(r);
    a, s := Take(r, a, s, MarkStale);
    a, s := TakesLead(r, a, s, 1);
    a, s := Looks(r, a, s, 2);
  }

  lemma StaleByFailure(r: Record) returns (a: seq<Step>, s: State)
    requires IsKept(r) && r([], Init(false))
    ensures r(a, s) && !s.lost && 2 in s.calls && s.calls[2].phase.Fast?
    ensures s.calls[2].phase.token.since < s.calls[2].begun
  {
    hide IsKept, ChannelStep, DropStep;
    a, s := TwoCallsAfterMark(r);
    a, s := PostFails(r, a, s, 1, s.flight.slot.value);
    a, s := Take(r, a, s, Restore(1));
    a, s := Ends(r, a, s, 1, Err(Rejected("refused")));
    a, s := Take(r, a, s, CheckFast(2, true));
  }

  lemma RunsAreRecords() returns (r: Record)
    ensures r == ((a, s) => Run(false, a) == Some(s)) && IsKept(r) && r([], Init(false))
  {
    r := (a, s) => Run(false, a) == Some(s);
    forall a: seq<Step>, s: State, step: Step | r(a, s) && Next(s, step).Some?
      ensures r(a + [step], Next(s, step).value)
    {
      assert (a + [step])[..|a|] == a;
    }
  }

  /**
   Nobody is dropped: a call that looks at the flag while a forced POST is under way, and at the slot after that POST has
   failed, gets the very token that was marked stale before it began.
   */
  lemma FailedPostServesStale() returns (steps: seq<Step>, id: nat)
    ensures Run(false, steps).Some?
    ensures var s := Run(false, steps).value;
            && !s.lost && id in s.calls && s.calls[id].phase.Fast?
            && s.calls[id].phase.token.since < s.calls[id].begun
  {
    var r := RunsAreRecords();
    var s;
    id := 2;
    steps, s := StaleByFailure(r);
    assert r(steps, s);
  }

  lemma StaleByFastPath(r: Record) returns (a: seq<Step>, s: State)
    requires IsKept(r) && r([], Init(false))
    ensures r(a, s) && !s.failed && 2 in s.calls && s.calls[2].phase.Fast?
    ensures s.calls[2].phase.token.since < s.calls[2].begun
  {
    a, s := DroppedInFlight(r);
    a, s := Looks(r, a, s, 2);
    a, s := Take(r, a, s, CheckFast(2, true));
  }

  /** After a drop like that the fast path hands out the very token that was marked stale before the call. */
  lemma DroppedLeaderLosesMark() returns (steps: seq<Step>, id: nat)
    ensures Run(false, steps).Some?
    ensures var s := Run(false, steps).value;
            && !s.failed && id in s.calls && s.calls[id].phase.Fast?
            && s.calls[id].phase.token.since < s.calls[id].begun
  {
    var r := RunsAreRecords();
    var s;
    id := 2;
    steps, s := StaleByFastPath(r);
    assert r(steps, s);
  }
}
