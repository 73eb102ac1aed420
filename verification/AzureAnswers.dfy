/** The token a leader of the shared refresh answers to its own caller, in every run. */
module AzureAnswers {
  import opened Utf8
  import opened SingleFlight
  import opened Azure
  import opened AzureRuns

  /**
   The calls that a forgotten mark misleads: they lead, find the flag down at their swap although the cached token is stale
   for them, and take that token rather than ask for one.
   */
  function MisledNext(misled: set<nat>, s: State, step: Step): set<nat> {
    match step
    case Swap(id) => if id in s.calls && !s.force && Stale(s, id) then misled + {id} else misled
    case CheckCache(id, valid) =>
      if id in s.calls && s.calls[id].phase.Reading? && (s.calls[id].phase.force || !CanUseCache(s, valid)) then misled - {id}
      else misled
    case _ => misled
  }

  function Misled(force: bool, steps: seq<Step>): set<nat> {
    if steps == [] then {}
    else
      var n := |steps| - 1;
      match Run(force, steps[..n])
      case Some(s) => MisledNext(Misled(force, steps[..n]), s, steps[n])
      case None => {}
  }

  /** A token answered is stale for the caller exactly when the call was misled. */
  predicate AnswerCounts(answer: Answer, begun: nat, misled: bool) {
    answer.Ok? ==> (misled <==> !NewerThan(answer.value.since, begun))
  }

  predicate CallAnswers(s: State, misled: set<nat>, id: nat)
    requires id in s.calls
  {
    var begun := s.calls[id].begun;
    match s.calls[id].phase
    case Swapped(_, force) => id in misled <==> !force && Stale(s, id)
    case Reading(_, force) => id in misled <==> !force && Stale(s, id)
    case Posting(_, _, sent) => id !in misled && begun < sent
    case Writing(_, _, got) => id !in misled && begun < got.since
    case Finishing(_, _, answer) => AnswerCounts(answer, begun, id in misled)
    case Ending(_, answer) => AnswerCounts(answer, begun, id in misled)
    case Sending(_, answer) => AnswerCounts(answer, begun, id in misled)
    case Led(answer) => AnswerCounts(answer, begun, id in misled)
    case Gone => true
    case _ => id !in misled
  }

  ghost predicate Answers(s: State, misled: set<nat>) {
    misled <= s.calls.Keys && forall id :: id in s.calls ==> CallAnswers(s, misled, id)
  }

  /** A call that does not move keeps its answer as long as the cached token stays, or it does not lead. */
  lemma OthersAnswer(s: State, t: State, misled: set<nat>, more: set<nat>, id: nat)
    requires Stands(s) && Answers(s, misled) && id in s.calls && t.calls.Keys == s.calls.Keys
    requires forall k :: k in s.calls && k != id ==> t.calls[k] == s.calls[k] && (k in more <==> k in misled)
    requires more <= s.calls.Keys
    requires Since(t) == Since(s) || PartOf(s.calls[id].phase).Leads?
    requires CallAnswers(t, more, id)
    ensures Answers(t, more)
  {
    forall k | k in t.calls ensures CallAnswers(t, more, k) {
      if k != id {
        assert CallAnswers(s, misled, k);
        if PartOf(s.calls[id].phase).Leads? {
          LeaderIs(s, id);
        }
      }
    }
  }

  lemma LookAnswers(s: State, misled: set<nat>, id: nat, step: Step)
    requires Stands(s) && Answers(s, misled) && id in s.calls && LookStep(s, id, step).Some?
    ensures Answers(LookStep(s, id, step).value, misled)
  {
    var t := LookStep(s, id, step).value;
    assert CallAnswers(s, misled, id);
    LookMoves(s, id, step);
    LookAside(s, id, step);
    OthersAnswer(s, t, misled, misled, id);
  }

  lemma ChannelAnswers(s: State, misled: set<nat>, id: nat, step: Step)
    requires Stands(s) && Answers(s, misled) && id in s.calls && IsFlight(s.flight) && ChannelStep(s, id, step).Some?
    ensures Answers(ChannelStep(s, id, step).value, misled)
  {
    var t := ChannelStep(s, id, step).value;
    assert CallAnswers(s, misled, id);
    OthersAnswer(s, t, misled, misled, id);
  }

  lemma DropAnswers(s: State, misled: set<nat>, id: nat)
    requires Stands(s) && Answers(s, misled) && id in s.calls && IsFlight(s.flight) && DropStep(s, id).Some?
    ensures Answers(DropStep(s, id).value, misled)
  {
    var t := DropStep(s, id).value;
    assert CallAnswers(s, misled, id);
    DropMoves(s, id);
    OthersAnswer(s, t, misled, misled, id);
  }

  lemma RefreshAnswers(s: State, misled: set<nat>, id: nat, step: Step)
    requires !step.MarkStale? && step.id == id
    requires Stands(s) && Timed(s) && Answers(s, misled) && id in s.calls && RefreshStep(s, id, step).Some?
    ensures Answers(RefreshStep(s, id, step).value, MisledNext(misled, s, step))
  {
    var t := RefreshStep(s, id, step).value;
    assert CallAnswers(s, misled, id) && CallTimed(s, id);
    RefreshMoves(s, id, step);
    RefreshLeads(s, id, step);
    MovedAnswers(s, misled, id, step);
    OthersAnswer(s, t, misled, MisledNext(misled, s, step), id);
  }

  lemma MovedAnswers(s: State, misled: set<nat>, id: nat, step: Step)
    requires id in s.calls && !step.MarkStale? && step.id == id && RefreshStep(s, id, step).Some?
    requires s.calls[id].begun <= s.marked <= s.clock && CallAnswers(s, misled, id) && id in RefreshStep(s, id, step).value.calls
    ensures CallAnswers(RefreshStep(s, id, step).value, MisledNext(misled, s, step), id)
  {
  }

  lemma MarkOrBeginAnswers(s: State, misled: set<nat>, step: Step)
    requires Answers(s, misled) && (step.MarkStale? || step.Begin?) && Next(s, step).Some?
    ensures Answers(Next(s, step).value, misled)
  {
    var t := Next(s, step).value;
    forall k | k in t.calls ensures CallAnswers(t, misled, k) {
      if k in s.calls {
        assert CallAnswers(s, misled, k);
      }
    }
  }

  lemma StepAnswers(s: State, misled: set<nat>, step: Step)
    requires Stands(s) && Timed(s) && Answers(s, misled) && Next(s, step).Some?
    ensures Answers(Next(s, step).value, MisledNext(misled, s, step))
  {
    hide Stands, Timed, Answers, LookStep, ChannelStep, RefreshStep, DropStep;
    if step.MarkStale? || step.Begin? {
      MarkOrBeginAnswers(s, misled, step);
    } else if step.Drop? {
      DropAnswers(s, misled, step.id);
    } else if step.Enter? || step.LoadForce? || step.CheckFast? {
      LookAnswers(s, misled, step.id, step);
    } else if step.Claim? || step.Clear? || step.Send? || step.Wake? {
      ChannelAnswers(s, misled, step.id, step);
    } else {
      RefreshAnswers(s, misled, step.id, step);
    }
  }

  lemma {:induction false} RunAnswers(force: bool, steps: seq<Step>)
    requires Run(force, steps).Some?
    ensures Answers(Run(force, steps).value, Misled(force, steps))
  {
    hide Next, Stands, Timed, MisledNext, CallAnswers;
    if steps != [] {
      var n := |steps| - 1;
      RunAnswers(force, steps[..n]);
      RunStands(force, steps[..n]);
      RunTimed(force, steps[..n]);
      StepAnswers(Run(force, steps[..n]).value, Misled(force, steps[..n]), steps[n]);
    }
  }

  /**
   The token a leader answers to its own caller was asked for after every mark that came before the call, exactly when the
   call was not misled at its swap.
   */
  lemma LeaderAnswerIsFresh(force: bool, steps: seq<Step>, id: nat)
    requires Run(force, steps).Some? && id in Run(force, steps).value.calls
    requires Run(force, steps).value.calls[id].phase.Led? && Run(force, steps).value.calls[id].phase.answer.Ok?
    ensures var call := Run(force, steps).value.calls[id];
            NewerThan(call.phase.answer.value.since, call.begun) <==> id !in Misled(force, steps)
  {
    RunAnswers(force, steps);
    assert CallAnswers(Run(force, steps).value, Misled(force, steps), id);
  }

  lemma SwapIsLed(s: State, step: Step)
    requires Stands(s) && Timed(s) && !s.lost && Next(s, step).Some?
    ensures MisledNext({}, s, step) == {}
  {
    hide LookStep, ChannelStep, DropStep;
    if step.Swap? {
      LeaderIs(s, step.id);
      assert CallTimed(s, step.id);
    }
  }

  /** In a run in which no leader holding the flag was dropped nobody is misled, whatever failed. */
  lemma {:induction false} OnlyLostMarksMislead(force: bool, steps: seq<Step>)
    requires Run(force, steps).Some? && !Run(force, steps).value.lost
    ensures Misled(force, steps) == {}
  {
    hide Next, Stands, Timed, MisledNext;
    if steps != [] {
      var n := |steps| - 1;
      var s := Run(force, steps[..n]).value;
      FlagsOnlyRise(s, steps[n]);
      OnlyLostMarksMislead(force, steps[..n]);
      RunStands(force, steps[..n]);
      RunTimed(force, steps[..n]);
      SwapIsLed(s, steps[n]);
    }
  }

  /** A call that finds the flag down after a drop, and leads. */
  lemma LeadsAfterDrop(r: Record) returns (a: seq<Step>, s: State)
    requires IsKept(r) && r([], Init(false))
    ensures r(a, s) && !s.failed && s.cache == Some(Token("first", 1)) && s.readers == {} && IsFlight(s.flight)
    ensures 2 in s.calls && s.calls[2].begun == 2 && s.flight.slot.Some?
    ensures s.calls[2].phase == Swapped(s.flight.slot.value, false)
  {
    hide IsKept, ChannelStep, RefreshStep, DropStep;
    a, s := DroppedInFlight(r);
    a, s := Looks(r, a, s, 2);
    a, s := Take(r, a, s, CheckFast(2, false));
    a, s := Claims(r, a, s, 2);
  }

  /** A leader that is misled takes the cached token. */
  lemma StaleByLead(r: Record) returns (a: seq<Step>, s: State)
    requires IsKept(r) && r([], Init(false))
    ensures r(a, s) && !s.failed && 2 in s.calls && s.calls[2].phase.Led? && s.calls[2].phase.answer.Ok?
    ensures s.calls[2].phase.answer.value.since < s.calls[2].begun
  {
    hide IsKept, LookStep, ChannelStep, DropStep;
    a, s := LeadsAfterDrop(r);
    a, s := Take(r, a, s, Read(2));
    a, s := Take(r, a, s, CheckCache(2, true));
    a, s := Take(r, a, s, Restore(2));
    a, s := Ends(r, a, s, 2, Ok(Token("first", 1)));
  }

  /** After a leader with the flag was dropped, the next leader answers the very token that was marked stale before its call. */
  lemma DroppedLeaderMisleadsNext() returns (steps: seq<Step>, id: nat)
    ensures Run(false, steps).Some?
    ensures var s := Run(false, steps).value;
            && !s.failed && id in s.calls && s.calls[id].phase.Led? && s.calls[id].phase.answer.Ok?
            && s.calls[id].phase.answer.value.since < s.calls[id].begun
  {
    var r := RunsAreRecords();
    var s;
    id := 2;
    steps, s := StaleByLead(r);
    assert r(steps, s);
  }
}
