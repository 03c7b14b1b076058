/** One claim walking its pool: the two loops as they run, with any steps of other requests
    between any two of their own, as a path through the states of `StreamingPool`. */
module StreamingClaim {
  import opened Common
  import opened StreamingPool

  /** Some run leads from one state to the other. */
  ghost predicate Reaches(a: State, b: State) { exists es :: Leads(a, es, b) }

  predicate Leads(a: State, es: seq<Event>, b: State) { Possible(a, es) && Run(a, es) == b }

  /** A run in which claimer `me` does nothing. */
  predicate Spares(es: seq<Event>, me: nat) { forall i | 0 <= i < |es| :: es[i] != Advance(me) }

  ghost predicate Meanwhile(a: State, b: State, me: nat) { exists es :: Spares(es, me) && Leads(a, es, b) }

  lemma {:induction false} LeadsOn(a: State, es: seq<Event>, b: State, fs: seq<Event>, c: State)
    requires Leads(a, es, b) && Leads(b, fs, c)
    ensures Leads(a, es + fs, c)
    decreases |es|
  {
    if es == [] {
      assert es + fs == fs;
    } else {
      assert (es + fs)[0] == es[0] && (es + fs)[1..] == es[1..] + fs;
      LeadsOn(Step(a, es[0]), es[1..], b, fs, c);
    }
  }

  lemma ReachesOn(a: State, b: State, c: State)
    requires Reaches(a, b) && Reaches(b, c)
    ensures Reaches(a, c)
  {
    var es :| Leads(a, es, b);
    var fs :| Leads(b, fs, c);
    LeadsOn(a, es, b, fs, c);
  }

  lemma ReachesByOne(a: State, e: Event)
    requires Enabled(a, e)
    ensures Reaches(a, Step(a, e))
  {
    assert Run(Step(a, e), [e][1..]) == Step(a, e);
    assert Leads(a, [e], Step(a, e));
  }

  /** What others do leaves a claimer's own record alone, and forgets no teardown. */
  lemma MeanwhileKeeps(a: State, b: State, me: nat)
    requires Meanwhile(a, b, me) && me < |a.claimers|
    ensures Reaches(a, b) && OwnKept(a, b, me)
  {
    var es :| Spares(es, me) && Leads(a, es, b);
    RunSpares(a, es, me);
  }

  predicate OwnKept(a: State, b: State, me: nat)
    requires me < |a.claimers|
  {
    && me < |b.claimers| && b.claimers[me] == a.claimers[me] && |a.tasks| <= |b.tasks|
    && (forall t | 0 <= t < |a.tasks| :: b.tasks[t].key == a.tasks[t].key && b.tasks[t].observed == a.tasks[t].observed)
  }

  lemma {:induction false} RunSpares(a: State, es: seq<Event>, me: nat)
    requires Possible(a, es) && Spares(es, me) && me < |a.claimers|
    ensures OwnKept(a, Run(a, es), me)
    decreases |es|
  {
    if es != [] {
      StepSpares(a, es[0], me);
      RunSpares(Step(a, es[0]), es[1..], me);
    }
  }

  lemma StepSpares(a: State, e: Event, me: nat)
    requires Enabled(a, e) && e != Advance(me) && me < |a.claimers|
    ensures OwnKept(a, Step(a, e), me)
  {
  }

  lemma MeanwhileByOne(a: State, b: State, e: Event, me: nat)
    requires Meanwhile(a, b, me) && Enabled(b, e) && e != Advance(me)
    ensures Meanwhile(a, Step(b, e), me)
  {
    var es :| Spares(es, me) && Leads(a, es, b);
    assert Run(Step(b, e), [e][1..]) == Step(b, e);
    LeadsOn(a, es, b, [e], Step(b, e));
    assert Spares(es + [e], me);
  }

  /** Every claim's waits fit in one budget, in any state a run leads to. */
  lemma ReachedIsFair(a: State, b: State)
    requires AllFair(a) && Reaches(a, b)
    ensures AllFair(b)
  {
    var es :| Leads(a, es, b);
    RunStaysFair(a, es);
  }

  predicate Walking(s: State, me: nat, phase: Phase) {
    me < |s.claimers| && s.claimers[me].phase == phase
  }

  class Redis {
    var s: State

    /** What other requests may do between two steps of this one. Callers rely on the
        contract alone; the body is the run in which they do nothing. */
    method Others(me: nat)
      modifies this
      ensures Meanwhile(old(s), s, me)
    {
      assert Leads(s, [], s) && Spares([], me);
    }

    /** Let the others run, anywhere along a claim's way. */
    method Between(me: nat, ghost start: State)
      requires Reaches(start, s) && me < |s.claimers|
      modifies this
      ensures Reaches(start, s) && OwnKept(old(s), s, me)
    {
      ghost var mid := s;
      Others(me);
      MeanwhileKeeps(mid, s, me);
      ReachesOn(start, mid, s);
    }

    /** Note where the claim stands. */
    method Note(me: nat, c: Claimer, ghost start: State)
      requires Reaches(start, s) && me < |s.claimers|
      requires SetClaimer(s, me, c) == AdvanceStep(s, me)
      modifies this
      ensures s == SetClaimer(old(s), me, c) && Reaches(start, s)
    {
      ghost var mid := s;
      s := s.(claimers := s.claimers[me := c]);
      ReachesByOne(mid, Advance(me));
      ReachesOn(start, mid, s);
    }

    /** SET NX on one candidate's key: won exactly when nothing live was there. */
    method TryClaim(me: nat, i: nat, otherwise: Phase, ghost start: State) returns (won: bool)
      requires Reaches(start, s) && me < |s.claimers| && i < |s.claimers[me].candidates|
      requires || (s.claimers[me].phase == Trying(i) && otherwise == Trying(i + 1))
               || (s.claimers[me].phase == Retrying(i) && otherwise == Sweeping(i + 1))
      modifies this
      ensures Reaches(start, s) && Walking(s, me, if won then Won(i) else otherwise)
      ensures var k := old(s).claimers[me].candidates[i];
              && won == Live(old(s), k).None?
              && s.claimers[me].candidates == old(s).claimers[me].candidates
              && s.claimers[me].refused == old(s).claimers[me].refused + (if won then {} else {k})
              && (won ==> HeldBy(s, k, me))
              && s.keys - {k} == old(s).keys - {k}
              && (!won ==> s.keys == old(s).keys)
    {
      ghost var before := s;
      var c := s.claimers[me];
      var k := c.candidates[i];
      won := Live(s, k).None?;
      if won {
        s := s.(keys := s.keys[k := Session(me, c.born, s.now + SESSION_TTL)],
                claimers := s.claimers[me := c.(phase := Won(i))]);
      } else {
        s := s.(claimers := s.claimers[me := c.(phase := otherwise, refused := c.refused + {k})]);
      }
      ReachesByOne(before, Advance(me));
      ReachesOn(start, before, s);
    }

    /** The teardown runs beside its claim, until it ends or the wait does. */
    method LetItRun(me: nat, t: nat)
      requires me < |s.claimers| && s.claimers[me].phase.Waiting? && t < |s.tasks|
      modifies this
      ensures Meanwhile(old(s), s, me) && t < |s.tasks| && me < |s.claimers|
      ensures s.tasks[t].progress.Ended? || s.now >= s.claimers[me].waitFrom + s.claimers[me].budget
    {
      assert Leads(s, [], s) && Spares([], me);
      while !s.tasks[t].progress.Ended?
        invariant Meanwhile(old(s), s, me) && t < |s.tasks| && me < |s.claimers|
        decreases if s.tasks[t].progress.Marking? then 2 else if s.tasks[t].progress.Working? then 1 else 0
      {
        MeanwhileByOne(old(s), s, Work(t), me);
        s := WorkStep(s, t);
      }
    }

    /** Start the teardown of the holder just seen and wait for it, `budget` seconds at most.
        It is asked for only once every candidate has refused. */
    method AwaitTeardown(me: nat, i: nat, observed: nat, budget: nat, ghost start: State) returns (ok: bool)
      requires Reaches(start, s) && Walking(s, me, Sweeping(i)) && i < |s.claimers[me].candidates|
      requires RefusedUpTo(s.claimers[me], |s.claimers[me].candidates|)
      requires Stale(s, s.claimers[me].candidates[i]) && HeldBy(s, s.claimers[me].candidates[i], observed)
      requires budget == if s.claimers[me].deadline > s.now then s.claimers[me].deadline - s.now else 0
      modifies this
      ensures Reaches(start, s) && Walking(s, me, if ok then Retrying(i) else Sweeping(i + 1))
      ensures s.claimers[me].candidates == old(s).claimers[me].candidates
      ensures s.claimers[me].refused == old(s).claimers[me].refused
      ensures var t, k := |old(s).tasks|, old(s).claimers[me].candidates[i];
              && t < |s.tasks| && s.tasks[t].key == k && s.tasks[t].observed == observed
              && ok == (s.tasks[t].progress.Ended? && s.tasks[t].progress.ok)
              && (s.tasks[t].progress.Ended? || s.now >= old(s).now + budget)
    {
      var c := s.claimers[me];
      var t := |s.tasks|;
      ghost var before := s;
      s := s.(tasks := s.tasks + [Task(c.candidates[i], observed, Marking)],
              claimers := s.claimers[me := c.(phase := Waiting(i, t), waitFrom := s.now, budget := budget)]);
      ReachesByOne(before, Advance(me));
      ReachesOn(start, before, s);
      ghost var mid := s;
      LetItRun(me, t);
      MeanwhileKeeps(mid, s, me);
      ReachesOn(start, mid, s);
      ok := s.tasks[t].progress.Ended? && s.tasks[t].progress.ok;
      c := s.claimers[me];
      Note(me, c.(phase := if ok then Retrying(i) else Sweeping(i + 1), waited := c.waited + (s.now - c.waitFrom)), start);
    }

    /** Config order, first free wins; only when every one is held look for an abandoned
        holder. None is the 409, with whether the head of the pool is draining. */
    method WinContainer(me: nat) returns (won: Option<nat>, draining: bool)
      requires Walking(s, me, Trying(0)) && AllFair(s)
      modifies this
      ensures Reaches(old(s), s) && me < |s.claimers|
      ensures s.claimers[me].candidates == old(s).claimers[me].candidates
      ensures 0 <= s.claimers[me].waited <= ABANDONED_TEARDOWN_WAIT
      ensures won.Some? ==> && won.value < |s.claimers[me].candidates| && s.claimers[me].phase == Won(won.value)
                            && HeldBy(s, s.claimers[me].candidates[won.value], me)
      ensures won.None? ==> && s.claimers[me].phase == Lost(draining)
                            && RefusedUpTo(s.claimers[me], |s.claimers[me].candidates|)
    {
      assert Leads(s, [], s);
      ghost var start := s;
      var n := |s.claimers[me].candidates|;
      for i := 0 to n
        invariant Reaches(start, s) && Walking(s, me, Trying(i))
        invariant s.claimers[me].candidates == start.claimers[me].candidates && RefusedUpTo(s.claimers[me], i)
      {
        Between(me, start);
        var ok := TryClaim(me, i, Trying(i + 1), start);
        if ok {
          ReachedIsFair(start, s);
          return Some(i), false;
        }
      }
      won, draining := SweepPool(me, start);
      ReachedIsFair(start, s);
    }

    method SweepPool(me: nat, ghost start: State) returns (won: Option<nat>, draining: bool)
      requires Reaches(start, s) && me < |s.claimers| && s.claimers[me].candidates != []
      requires s.claimers[me].phase == Trying(|s.claimers[me].candidates|)
      requires RefusedUpTo(s.claimers[me], |s.claimers[me].candidates|)
      modifies this
      ensures Reaches(start, s) && me < |s.claimers| && s.claimers[me].candidates == old(s).claimers[me].candidates
      ensures won.Some? ==> && won.value < |s.claimers[me].candidates| && s.claimers[me].phase == Won(won.value)
                            && HeldBy(s, s.claimers[me].candidates[won.value], me)
      ensures won.None? ==> && s.claimers[me].phase == Lost(draining)
                            && RefusedUpTo(s.claimers[me], |s.claimers[me].candidates|)
    {
      var candidates := s.claimers[me].candidates;
      Note(me, s.claimers[me].(phase := Sweeping(0), deadline := s.now + ABANDONED_TEARDOWN_WAIT), start);
      for i := 0 to |candidates|
        invariant Reaches(start, s) && Walking(s, me, Sweeping(i)) && s.claimers[me].candidates == candidates
        invariant RefusedUpTo(s.claimers[me], |candidates|)
      {
        Between(me, start);
        var existing := Live(s, candidates[i]);
        if existing.None? || existing.value.Drain? || s.now - existing.value.lastSeen <= STALE_SECONDS {
          Note(me, s.claimers[me].(phase := Sweeping(i + 1)), start);
          continue;
        }
        var deadline := s.claimers[me].deadline;
        var freed := AwaitTeardown(me, i, existing.value.claim, if deadline > s.now then deadline - s.now else 0, start);
        if freed {
          Between(me, start);
          var ok := TryClaim(me, i, Sweeping(i + 1), start);
          if ok {
            return Some(i), false;
          }
        }
      }
      Between(me, start);
      var head := Live(s, candidates[0]);
      draining := head.Some? && head.value.Drain?;
      Note(me, s.claimers[me].(phase := Lost(draining)), start);
      won := None;
    }
  }

  /** A teardown that ended well while its claim waited wins the claim the container, if the key
      is free when the claim tries again, whatever the others do in between. */
  lemma GrantedTeardownWins(s: State, c: nat, i: nat, t: nat, u: State)
    requires c < |s.claimers| && i < |s.claimers[c].candidates| && t < |s.tasks|
    requires s.claimers[c].phase == Waiting(i, t) && s.tasks[t].progress == Ended(true)
    requires Meanwhile(AdvanceStep(s, c), u, c) && Live(u, s.claimers[c].candidates[i]).None?
    ensures c < |u.claimers|
    ensures var u' := AdvanceStep(u, c);
            u'.claimers[c].phase == Won(i) && HeldBy(u', s.claimers[c].candidates[i], c)
  {
    WaitEndsExactly(s, c, i, t);
    WaitKeepsCandidates(s, c);
    MeanwhileKeeps(AdvanceStep(s, c), u, c);
    RetryWins(u, c, i);
    hide AdvanceStep, Meanwhile;
  }

  lemma WaitKeepsCandidates(s: State, c: nat)
    requires c < |s.claimers|
    ensures var s' := AdvanceStep(s, c);
            |s'.claimers| == |s.claimers| && s'.claimers[c].candidates == s.claimers[c].candidates
  {
  }

  lemma RetryWins(u: State, c: nat, i: nat)
    requires c < |u.claimers| && u.claimers[c].phase == Retrying(i) && i < |u.claimers[c].candidates|
    requires Live(u, u.claimers[c].candidates[i]).None?
    ensures var u' := AdvanceStep(u, c);
            u'.claimers[c].phase == Won(i) && HeldBy(u', u.claimers[c].candidates[i], c)
  {
  }

  // ---- A takeover that works ----

  /** A holder counts as gone exactly when it has not been seen for more than 180 seconds. */
  lemma AbandonedExactly(s: State, k: Key, claim: nat)
    requires HeldBy(s, k, claim)
    ensures Stale(s, k) <==> s.now > s.keys[k].lastSeen + 180
  {
  }

  /** A sweep that comes to such a holder starts a teardown of that claim, and passes by any other. */
  lemma SweepMeans(s: State, c: nat, i: nat)
    requires c < |s.claimers| && s.claimers[c].phase == Sweeping(i) && i < |s.claimers[c].candidates|
    ensures var s', k := AdvanceStep(s, c), s.claimers[c].candidates[i];
            if exists claim :: HeldBy(s, k, claim) && s.now > s.keys[k].lastSeen + 180 then
              && s'.claimers[c].phase == Waiting(i, |s.tasks|) && |s'.tasks| == |s.tasks| + 1
              && s'.tasks[|s.tasks|] == Task(k, s.keys[k].claim, Marking)
            else s'.claimers[c].phase == Sweeping(i + 1) && s'.tasks == s.tasks
  {
    var k := s.claimers[c].candidates[i];
    if Stale(s, k) { assert HeldBy(s, k, s.keys[k].claim); }
    if claim :| HeldBy(s, k, claim) && s.now > s.keys[k].lastSeen + 180 { AbandonedExactly(s, k, claim); }
  }

  /** A teardown takes the key over with a marker that lasts 60 seconds, if the holder it was
      started for is still there and still gone, and otherwise gives up untouched. */
  lemma MarkingMeans(s: State, t: nat)
    requires t < |s.tasks| && s.tasks[t].progress == Marking
    ensures var s', task := WorkStep(s, t), s.tasks[t];
            if HeldBy(s, task.key, task.observed) && s.now > s.keys[task.key].lastSeen + 180 then
              && s'.tasks[t].progress == Working(s.nextToken)
              && s'.keys == s.keys[task.key := Drain(s.nextToken, s.now + 60)]
            else s'.tasks[t].progress == Ended(false) && s'.keys == s.keys
  {
    if HeldBy(s, s.tasks[t].key, s.tasks[t].observed) { AbandonedExactly(s, s.tasks[t].key, s.tasks[t].observed); }
  }

  /** When its work is done it frees the container, if its own marker still stands there. */
  lemma WorkMeans(s: State, t: nat)
    requires t < |s.tasks| && s.tasks[t].progress.Working?
    ensures var s', k, token := WorkStep(s, t), s.tasks[t].key, s.tasks[t].progress.token;
            && s'.tasks[t].progress == Ended(true)
            && (MarkedBy(s, k, token) ==> s'.keys == s.keys - {k} && Live(s', k).None?)
            && (!MarkedBy(s, k, token) ==> s'.keys == s.keys)
  {
  }

  /** Undisturbed, a claim that comes to an abandoned holder gets the container: the teardown
      marks it and frees it, and the claim tries again and wins. */
  lemma AbandonedIsTakenOver(s: State, c: nat, i: nat, claim: nat)
    requires c < |s.claimers| && s.claimers[c].phase == Sweeping(i) && i < |s.claimers[c].candidates|
    requires HeldBy(s, s.claimers[c].candidates[i], claim) && s.now > s.keys[s.claimers[c].candidates[i]].lastSeen + 180
    ensures var t, k := |s.tasks|, s.claimers[c].candidates[i];
            var handed := AdvanceStep(s, c);
            && t < |handed.tasks| && c < |handed.claimers|
            && var freed := WorkStep(WorkStep(handed, t), t);
               && c < |freed.claimers|
               && var again := AdvanceStep(freed, c);
                  && c < |again.claimers|
                  && AdvanceStep(again, c).claimers[c].phase == Won(i) && HeldBy(AdvanceStep(again, c), k, c)
  {
    var t, k := |s.tasks|, s.claimers[c].candidates[i];
    AbandonedExactly(s, k, claim);
    SweepMeans(s, c, i);
    var handed := AdvanceStep(s, c);
    WaitKeepsCandidates(s, c);
    SweepKeepsKeys(s, c, i);
    MarkingMeans(handed, t);
    WorkKeepsClaimers(handed, t);
    var marked := WorkStep(handed, t);
    WorkMeans(marked, t);
    WorkKeepsClaimers(marked, t);
    var freed := WorkStep(marked, t);
    WaitEndsExactly(freed, c, i, t);
    WaitKeepsCandidates(freed, c);
    WaitKeepsKeys(freed, c, i, t);
    RetryWins(AdvanceStep(freed, c), c, i);
    hide AdvanceStep, WorkStep, Stale;
  }

  lemma SweepKeepsKeys(s: State, c: nat, i: nat)
    requires c < |s.claimers| && s.claimers[c].phase == Sweeping(i) && i < |s.claimers[c].candidates|
    ensures AdvanceStep(s, c).keys == s.keys && AdvanceStep(s, c).now == s.now
  {
  }

  lemma WaitKeepsKeys(s: State, c: nat, i: nat, t: nat)
    requires c < |s.claimers| && s.claimers[c].phase == Waiting(i, t)
    ensures AdvanceStep(s, c).keys == s.keys && AdvanceStep(s, c).now == s.now
  {
  }

  lemma WorkKeepsClaimers(s: State, t: nat)
    requires t < |s.tasks|
    ensures var s' := WorkStep(s, t);
            && s'.claimers == s.claimers && s'.now == s.now && |s'.tasks| == |s.tasks|
            && s'.tasks[t].key == s.tasks[t].key
  {
  }
}
