/** Where the answers of `get_token` come from, in every run: the cache while its token lives, the token endpoint, a drop. */
module AzureTokens {
  import opened Utf8
  import opened SingleFlight
  import opened Azure
  import opened AzureRuns

  // ---- the two looks at the cache ----

  /** The fast path is taken with a living token in the cache and no refresh in flight, and only then. */
  lemma FastLook(s: State, id: nat, valid: bool)
    requires Next(s, CheckFast(id, valid)).Some?
    ensures id in s.calls && s.calls[id].phase == Unforced
    ensures Next(s, CheckFast(id, valid)).value
         == s.(readers := s.readers - {id},
               calls := s.calls[id := s.calls[id].(phase :=
                 if valid && s.cache.Some? && s.flight.slot.None? then Fast(s.cache.value) else Claiming)])
  {
  }

  /** A leader without the flag answers a living token of the cache; every other leader asks the token endpoint. */
  lemma LeaderLook(s: State, id: nat, valid: bool)
    requires Next(s, CheckCache(id, valid)).Some?
    ensures id in s.calls && s.calls[id].phase.Reading?
    ensures var p, t := s.calls[id].phase, Next(s, CheckCache(id, valid)).value;
            && id in t.calls && t.cache == s.cache
            && t.calls[id].phase == if valid && s.cache.Some? && !p.force then Finishing(p.c, p.force, Ok(s.cache.value))
                                    else Posting(p.c, p.force, s.clock + 1)
  {
  }

  /** What a leader has got for its callers. */
  function Got(phase: Phase): Option<Answer> {
    match phase
    case Writing(_, _, token) => Some(Ok(token))
    case Finishing(_, _, answer) => Some(answer)
    case Ending(_, answer) => Some(answer)
    case Sending(_, answer) => Some(answer)
    case Led(answer) => Some(answer)
    case _ => None
  }

  /** The step of the call `id` gets it this answer. */
  predicate Brings(s: State, step: Step, id: nat, answer: Answer) {
    match step
    case CheckCache(k, valid) => k == id && valid && s.cache.Some? && answer == Ok(s.cache.value)
    case Post(k, Ok(text)) => k == id && answer.Ok? && answer.value.text == text
    case Post(k, Err(e)) => k == id && answer == Err(e)
    case Drop(k) => k == id && answer == Err(TokenProvider("token refresh aborted"))
    case _ => false
  }

  lemma LookGets(s: State, id: nat, step: Step, k: nat)
    requires id in s.calls && LookStep(s, id, step).Some? && k in LookStep(s, id, step).value.calls
    requires Got(LookStep(s, id, step).value.calls[k].phase).Some?
    ensures k in s.calls && Got(s.calls[k].phase) == Got(LookStep(s, id, step).value.calls[k].phase)
  {
  }

  lemma ChannelGets(s: State, id: nat, step: Step, k: nat)
    requires id in s.calls && IsFlight(s.flight) && ChannelStep(s, id, step).Some? && k in ChannelStep(s, id, step).value.calls
    requires Got(ChannelStep(s, id, step).value.calls[k].phase).Some?
    ensures k in s.calls && Got(s.calls[k].phase) == Got(ChannelStep(s, id, step).value.calls[k].phase)
  {
  }

  lemma RefreshGets(s: State, id: nat, step: Step, k: nat)
    requires !step.MarkStale? && step.id == id && id in s.calls && RefreshStep(s, id, step).Some?
    requires k in RefreshStep(s, id, step).value.calls && Got(RefreshStep(s, id, step).value.calls[k].phase).Some?
    ensures var got := Got(RefreshStep(s, id, step).value.calls[k].phase);
            && k in s.calls && (Got(s.calls[k].phase) == got || Brings(s, step, k, got.value))
  {
  }

  lemma DropGets(s: State, id: nat, k: nat)
    requires id in s.calls && IsFlight(s.flight) && DropStep(s, id).Some?
    requires k in DropStep(s, id).value.calls && Got(DropStep(s, id).value.calls[k].phase).Some?
    ensures var got := Got(DropStep(s, id).value.calls[k].phase);
            && k in s.calls && (Got(s.calls[k].phase) == got || Brings(s, Drop(id), k, got.value))
  {
  }

  lemma StepGets(s: State, step: Step, k: nat)
    requires Next(s, step).Some? && k in Next(s, step).value.calls && Got(Next(s, step).value.calls[k].phase).Some?
    ensures var got := Got(Next(s, step).value.calls[k].phase);
            && k in s.calls && (Got(s.calls[k].phase) == got || Brings(s, step, k, got.value))
  {
    hide LookStep, ChannelStep, RefreshStep, DropStep, Got, Brings;
    if step.MarkStale? {
    } else if step.Begin? {
      NothingGot();
    } else if step.Drop? {
      DropGets(s, step.id, k);
    } else if step.Enter? || step.LoadForce? || step.CheckFast? {
      LookGets(s, step.id, step, k);
    } else if step.Claim? || step.Clear? || step.Send? || step.Wake? {
      ChannelGets(s, step.id, step, k);
    } else {
      RefreshGets(s, step.id, step, k);
    }
  }

  lemma NothingGot()
    ensures Got(Entering) == None
  {
  }

  /**
   What a leader answers was brought by one step of its own: the look at a living token in the cache, the answer of the
   token endpoint, or a drop.
   */
  lemma {:induction false} AnswerHasSource(force: bool, steps: seq<Step>, id: nat) returns (i: nat)
    requires Run(force, steps).Some? && id in Run(force, steps).value.calls
    requires Got(Run(force, steps).value.calls[id].phase).Some?
    ensures i < |steps| && Run(force, steps[..i]).Some?
    ensures Brings(Run(force, steps[..i]).value, steps[i], id, Got(Run(force, steps).value.calls[id].phase).value)
    decreases |steps|
  {
    hide Next, Brings;
    var n := |steps| - 1;
    var s := Run(force, steps[..n]).value;
    StepGets(s, steps[n], id);
    if Got(s.calls[id].phase) == Got(Run(force, steps).value.calls[id].phase) {
      i := AnswerHasSource(force, steps[..n], id);
      assert steps[..n][..i] == steps[..i];
    } else {
      i := n;
    }
  }

  lemma StepFast(s: State, step: Step, id: nat)
    requires Next(s, step).Some? && id in Next(s, step).value.calls && Next(s, step).value.calls[id].phase.Fast?
    ensures var fast := Next(s, step).value.calls[id].phase;
            && id in s.calls
            && (s.calls[id].phase == fast
                || (step == CheckFast(id, true) && s.cache == Some(fast.token) && s.flight.slot.None?))
  {
    hide RefreshStep, ChannelStep, DropStep, LookStep;
    if step.CheckFast? {
      FastLook(s, step.id, step.valid);
    } else if !step.MarkStale? && !step.Begin? {
      OtherStepsLookAway(s, step, id);
    }
  }

  /** Neither the cache nor a call that took the fast path is touched. */
  predicate Apart(s: State, t: State, k: nat) {
    t.cache == s.cache && k in s.calls && (k in t.calls && t.calls[k].phase.Fast? ==> s.calls[k].phase == t.calls[k].phase)
  }

  lemma LookApart(s: State, id: nat, step: Step, k: nat)
    requires id in s.calls && !step.CheckFast? && k in s.calls && LookStep(s, id, step).Some?
    ensures Apart(s, LookStep(s, id, step).value, k)
  {
  }

  lemma ChannelApart(s: State, id: nat, step: Step, k: nat)
    requires id in s.calls && IsFlight(s.flight) && k in s.calls && ChannelStep(s, id, step).Some?
    ensures Apart(s, ChannelStep(s, id, step).value, k)
  {
  }

  lemma RefreshApart(s: State, id: nat, step: Step, k: nat)
    requires id in s.calls && k in s.calls && RefreshStep(s, id, step).Some?
    ensures Apart(s, RefreshStep(s, id, step).value.(cache := s.cache), k)
  {
  }

  lemma DropApart(s: State, id: nat, k: nat)
    requires id in s.calls && IsFlight(s.flight) && k in s.calls && DropStep(s, id).Some?
    ensures Apart(s, DropStep(s, id).value, k)
  {
  }

  lemma OtherStepsLookAway(s: State, step: Step, k: nat)
    requires !step.MarkStale? && !step.Begin? && !step.CheckFast? && Next(s, step).Some? && k in Next(s, step).value.calls
    ensures k in s.calls && (Next(s, step).value.calls[k].phase.Fast? ==> s.calls[k].phase == Next(s, step).value.calls[k].phase)
  {
    hide LookStep, ChannelStep, RefreshStep, DropStep;
    NoNewCalls(s, step);
    if step.Drop? {
      DropApart(s, step.id, k);
    } else if step.Enter? || step.LoadForce? {
      LookApart(s, step.id, step, k);
    } else if step.Claim? || step.Clear? || step.Send? || step.Wake? {
      ChannelApart(s, step.id, step, k);
    } else {
      RefreshApart(s, step.id, step, k);
    }
  }

  lemma ChannelKeys(s: State, id: nat, step: Step)
    requires id in s.calls && IsFlight(s.flight) && ChannelStep(s, id, step).Some?
    ensures ChannelStep(s, id, step).value.calls.Keys == s.calls.Keys
  {
  }

  lemma NoNewCalls(s: State, step: Step)
    requires !step.MarkStale? && !step.Begin? && Next(s, step).Some?
    ensures Next(s, step).value.calls.Keys == s.calls.Keys
  {
    hide LookStep, ChannelStep, RefreshStep, DropStep;
    if step.Drop? {
      DropMoves(s, step.id);
    } else if step.Enter? || step.LoadForce? || step.CheckFast? {
      LookMoves(s, step.id, step);
    } else if step.Claim? || step.Clear? || step.Send? || step.Wake? {
      ChannelKeys(s, step.id, step);
    } else {
      RefreshMoves(s, step.id, step);
    }
  }

  /** A call takes the fast path by its own look at a living token in the cache, while no refresh is in flight. */
  lemma {:induction false} FastTokenWasAlive(force: bool, steps: seq<Step>, id: nat) returns (i: nat)
    requires Run(force, steps).Some? && id in Run(force, steps).value.calls && Run(force, steps).value.calls[id].phase.Fast?
    ensures i < |steps| && steps[i] == CheckFast(id, true) && Run(force, steps[..i]).Some?
    ensures var s := Run(force, steps[..i]).value;
            s.cache == Some(Run(force, steps).value.calls[id].phase.token) && s.flight.slot.None?
    decreases |steps|
  {
    hide Next;
    var n := |steps| - 1;
    var s := Run(force, steps[..n]).value;
    StepFast(s, steps[n], id);
    if s.calls[id].phase == Run(force, steps).value.calls[id].phase {
      i := FastTokenWasAlive(force, steps[..n], id);
      assert steps[..n][..i] == steps[..i];
    } else {
      i := n;
    }
  }

  // ---- the cache ----

  lemma WriteCaches(s: State, id: nat)
    requires Next(s, Write(id)).Some?
    ensures id in s.calls && s.calls[id].phase.Writing? && Next(s, Write(id)).value.cache == Some(s.calls[id].phase.got)
  {
    hide LookStep, ChannelStep, DropStep;
  }

  lemma OthersKeepCache(s: State, step: Step)
    requires Next(s, step).Some? && !step.Write?
    ensures Next(s, step).value.cache == s.cache
  {
    hide LookStep, ChannelStep, RefreshStep, DropStep;
    if step.MarkStale? || step.Begin? {
    } else if step.Drop? {
      DropMoves(s, step.id);
    } else if step.CheckFast? {
      FastLook(s, step.id, step.valid);
    } else if step.Enter? || step.LoadForce? {
      LookApart(s, step.id, step, step.id);
    } else if step.Claim? || step.Clear? || step.Send? || step.Wake? {
      ChannelApart(s, step.id, step, step.id);
    } else {
      RefreshMoves(s, step.id, step);
    }
  }

  /** The cached token is what the token endpoint answered to some call. */
  lemma {:induction false} CacheWasPosted(force: bool, steps: seq<Step>) returns (i: nat, id: nat)
    requires Run(force, steps).Some? && Run(force, steps).value.cache.Some?
    ensures i < |steps| && steps[i] == Post(id, Ok(Run(force, steps).value.cache.value.text))
    decreases |steps|
  {
    hide Next;
    var n := |steps| - 1;
    if steps == [] {
      NothingCached(force);
    } else {
      var s := Run(force, steps[..n]).value;
      if !steps[n].Write? {
        OthersKeepCache(s, steps[n]);
        i, id := CacheWasPosted(force, steps[..n]);
      } else {
        id := steps[n].id;
        WriteCaches(s, id);
        i := AnswerHasSource(force, steps[..n], id);
        assert steps[..n][..i] == steps[..i];
        if steps[i].CheckCache? {
          i, id := CacheWasPosted(force, steps[..i]);
        }
      }
    }
  }

  lemma NothingCached(force: bool)
    ensures Run(force, []).value.cache == None
  {
  }

  // ---- the next call ----

  /** The leader's last steps after its token has come. */
  function Completes(id: nat): seq<Step> {
    [Write(id), Restore(id), Clear(id), Send(id)]
  }

  /** A call that looks while the token lives. */
  function LooksAlive(id: nat): seq<Step> {
    [Begin(id), Enter(id), LoadForce(id), CheckFast(id, true)]
  }

  lemma WrittenBy(s: State, id: nat, c: nat, force: bool, got: Token) returns (s1: State, s2: State)
    requires id in s.calls && s.calls[id].phase == Writing(c, force, got) && s.readers == {} && IsFlight(s.flight)
    ensures Next(s, Write(id)) == Some(s1) && Next(s1, Restore(id)) == Some(s2)
    ensures s2 == s.(cache := Some(got), calls := s.calls[id := s.calls[id].(phase := Ending(c, Ok(got)))])
  {
    hide LookStep, DropStep, ChannelStep;
    s1 := Next(s, Write(id)).value;
    s2 := Next(s1, Restore(id)).value;
  }

  lemma EndedBy(s: State, id: nat, c: nat, answer: Answer) returns (s1: State, s2: State)
    requires id in s.calls && s.calls[id].phase == Ending(c, answer) && IsFlight(s.flight) && c < |s.flight.channels|
    ensures Next(s, Clear(id)) == Some(s1) && Next(s1, Send(id)) == Some(s2)
    ensures s2 == s.(flight := s2.flight, calls := s.calls[id := s.calls[id].(phase := Led(answer))])
    ensures s2.flight.slot.None?
  {
    hide LookStep, DropStep, RefreshStep;
    s1 := Next(s, Clear(id)).value;
    s2 := Next(s1, Send(id)).value;
  }

  lemma CompletedBy(s: State, id: nat, c: nat, force: bool, got: Token) returns (s1: State, s2: State, s3: State, s4: State)
    requires id in s.calls && s.calls[id].phase == Writing(c, force, got) && s.readers == {} && IsFlight(s.flight)
    requires c < |s.flight.channels|
    ensures Next(s, Write(id)) == Some(s1) && Next(s1, Restore(id)) == Some(s2) && Next(s2, Clear(id)) == Some(s3)
    ensures Next(s3, Send(id)) == Some(s4)
    ensures s4.cache == Some(got) && s4.flight.slot.None? && s4.readers == {} && s4.calls.Keys == s.calls.Keys
    ensures s4.force == s.force && IsFlight(s4.flight)
  {
    hide Next;
    s1, s2 := WrittenBy(s, id, c, force, got);
    s3, s4 := EndedBy(s2, id, c, Ok(got));
  }

  lemma LookedAliveBy(s: State, id: nat) returns (s1: State, s2: State, s3: State, s4: State)
    requires id !in s.calls && s.cache.Some? && s.flight.slot.None? && s.readers == {} && !s.force && IsFlight(s.flight)
    ensures Next(s, Begin(id)) == Some(s1) && Next(s1, Enter(id)) == Some(s2) && Next(s2, LoadForce(id)) == Some(s3)
    ensures Next(s3, CheckFast(id, true)) == Some(s4) && id in s4.calls && s4.calls[id].phase == Fast(s.cache.value)
  {
    hide RefreshStep, DropStep, ChannelStep;
    s1 := Next(s, Begin(id)).value;
    s2 := Next(s1, Enter(id)).value;
    s3 := Next(s2, LoadForce(id)).value;
    s4 := Next(s3, CheckFast(id, true)).value;
  }

  lemma RunFour(force: bool, steps: seq<Step>, four: seq<Step>, s: State, s1: State, s2: State, s3: State, s4: State)
    requires |four| == 4 && Run(force, steps) == Some(s)
    requires Next(s, four[0]) == Some(s1) && Next(s1, four[1]) == Some(s2) && Next(s2, four[2]) == Some(s3)
    requires Next(s3, four[3]) == Some(s4)
    ensures Run(force, steps + four) == Some(s4)
  {
    hide Next;
    var all := steps + four;
    var n := |steps|;
    assert all[..n + 4] == all && all[..n + 4][..n + 3] == all[..n + 3] && all[..n + 3][..n + 2] == all[..n + 2];
    assert all[..n + 2][..n + 1] == all[..n + 1] && all[..n + 1][..n] == steps;
    assert Run(force, all[..n + 1]) == Some(s1);
    assert Run(force, all[..n + 2]) == Some(s2);
    assert Run(force, all[..n + 3]) == Some(s3);
  }

  /**
   From every point of every run at which a leader has a token and nobody reads the cache: once the leader has ended, a
   new call that looks while the token lives, and finds no mark, gets that very token without asking for another.
   */
  lemma RefreshedTokenIsServed(force: bool, steps: seq<Step>, id: nat, next: nat)
    requires Run(force, steps).Some?
    requires var s := Run(force, steps).value;
             id in s.calls && s.calls[id].phase.Writing? && s.readers == {} && !s.force && next !in s.calls
    ensures var all := steps + Completes(id) + LooksAlive(next);
            var got := Run(force, steps).value.calls[id].phase.got;
            && Run(force, all).Some? && next in Run(force, all).value.calls
            && Run(force, all).value.calls[next].phase == Fast(got)
  {
    hide Next, Stands;
    var s := Run(force, steps).value;
    RunStands(force, steps);
    LeaderHasChannel(s, id);
    var p := s.calls[id].phase;
    var s1, s2, s3, s4 := CompletedBy(s, id, p.c, p.force, p.got);
    RunFour(force, steps, Completes(id), s, s1, s2, s3, s4);
    var t1, t2, t3, t4 := LookedAliveBy(s4, next);
    RunFour(force, steps + Completes(id), LooksAlive(next), s4, t1, t2, t3, t4);
  }

  lemma LeaderHasChannel(s: State, id: nat)
    requires Stands(s) && id in s.calls && s.calls[id].phase.Writing?
    ensures IsFlight(s.flight) && s.calls[id].phase.c < |s.flight.channels|
  {
    assert CallStands(s, id);
  }
}
