/** Claims on a pool of streaming containers, as a state machine over their Redis keys:
    SET NX to win one, compare-and-set to take over an abandoned one, markers while a
    teardown drains it. Every step is one atomic Redis operation; any may interleave. */
module StreamingPool {
  import opened Common

  type Key = string

  const SESSION_TTL := 21600
  const DRAIN_MARKER_TTL := 60
  const STALE_SECONDS := 180
  const ABANDONED_TEARDOWN_WAIT := 30

  /** What a container's key holds. A claim is identified by the claimer that made it. */
  datatype Entry =
    | Session(claim: nat, lastSeen: int, expires: int)
    | Drain(token: nat, expires: int)

  datatype Phase =
    | Trying(next: nat)             // first free wins, in config order
    | Sweeping(next: nat)           // every one was held: look for an abandoned holder
    | Waiting(next: nat, task: nat) // for a teardown, within the budget
    | Retrying(next: nat)
    | Won(next: nat)
    | Lost(draining: bool)

  datatype Claimer = Claimer(candidates: seq<Key>, born: int, phase: Phase, deadline: int,
                             waitFrom: int, budget: int, waited: int, refused: set<Key>)

  datatype Progress = Marking | Working(token: nat) | Ended(ok: bool)

  /** The teardown of the holder some claimer saw. It outlives that claimer's wait. */
  datatype Task = Task(key: Key, observed: nat, progress: Progress)

  datatype State = State(now: int, keys: map<Key, Entry>, claimers: seq<Claimer>, tasks: seq<Task>, nextToken: nat)

  const START := State(0, map[], [], [], 0)

  function Live(s: State, k: Key): Option<Entry> {
    if k in s.keys && s.now < s.keys[k].expires then Some(s.keys[k]) else None
  }

  predicate HeldBy(s: State, k: Key, claim: nat) {
    var e := Live(s, k);
    e.Some? && e.value.Session? && e.value.claim == claim
  }

  predicate MarkedBy(s: State, k: Key, token: nat) {
    var e := Live(s, k);
    e.Some? && e.value.Drain? && e.value.token == token
  }

  predicate Stale(s: State, k: Key) {
    var e := Live(s, k);
    e.Some? && e.value.Session? && s.now - e.value.lastSeen > STALE_SECONDS
  }

  datatype Event =
    | Tick(seconds: nat)
    | Arrive(candidates: seq<Key>)
    | Advance(claimer: nat)
    | Work(task: nat)
    | Heartbeat(key: Key, claim: nat)
    | Exit(key: Key, claim: nat)      // the owner or an admin ends it: a marker drains it
    | Release(key: Key, claim: nat)   // an aborted claim gives the container back
    | KeepMarker(key: Key, token: nat)
    | DropMarker(key: Key, token: nat)

  /** Time does not run past the end of a bounded wait. */
  predicate Enabled(s: State, e: Event) {
    match e
    case Tick(seconds) =>
      forall c | 0 <= c < |s.claimers| && s.claimers[c].phase.Waiting? ::
        s.now + seconds <= s.claimers[c].waitFrom + s.claimers[c].budget
    case Arrive(candidates) => candidates != []
    case Advance(c) => c < |s.claimers|
    case Work(t) => t < |s.tasks|
    case _ => true
  }

  function SetClaimer(s: State, c: nat, claimer: Claimer): State
    requires c < |s.claimers|
  {
    s.(claimers := s.claimers[c := claimer])
  }

  /** SET NX: the key is taken only if nothing live is there. */
  function TryClaim(s: State, c: nat, i: nat, otherwise: Phase): State
    requires c < |s.claimers| && i < |s.claimers[c].candidates|
  {
    var me := s.claimers[c];
    var k := me.candidates[i];
    if Live(s, k).None? then
      SetClaimer(s.(keys := s.keys[k := Session(c, me.born, s.now + SESSION_TTL)]), c, me.(phase := Won(i)))
    else
      SetClaimer(s, c, me.(phase := otherwise, refused := me.refused + {k}))
  }

  function Sweep(s: State, c: nat, i: nat): State
    requires c < |s.claimers| && i < |s.claimers[c].candidates|
  {
    var me := s.claimers[c];
    var k := me.candidates[i];
    if !Stale(s, k) then SetClaimer(s, c, me.(phase := Sweeping(i + 1)))
    else
      var budget := if me.deadline > s.now then me.deadline - s.now else 0;
      SetClaimer(s.(tasks := s.tasks + [Task(k, s.keys[k].claim, Marking)]), c,
                 me.(phase := Waiting(i, |s.tasks|), waitFrom := s.now, budget := budget))
  }

  function StopWaiting(s: State, c: nat, i: nat, next: Phase): State
    requires c < |s.claimers|
  {
    var me := s.claimers[c];
    SetClaimer(s, c, me.(phase := next, waited := me.waited + (s.now - me.waitFrom)))
  }

  function AdvanceStep(s: State, c: nat): State
    requires c < |s.claimers|
  {
    var me := s.claimers[c];
    match me.phase
    case Trying(i) =>
      if i < |me.candidates| then TryClaim(s, c, i, Trying(i + 1))
      else SetClaimer(s, c, me.(phase := Sweeping(0), deadline := s.now + ABANDONED_TEARDOWN_WAIT))
    case Sweeping(i) =>
      if i < |me.candidates| then Sweep(s, c, i)
      else SetClaimer(s, c, me.(phase := Lost(me.candidates != [] && Live(s, me.candidates[0]).Some?
                                               && Live(s, me.candidates[0]).value.Drain?)))
    case Waiting(i, t) =>
      if t < |s.tasks| && s.tasks[t].progress.Ended? then
        StopWaiting(s, c, i, if s.tasks[t].progress.ok then Retrying(i) else Sweeping(i + 1))
      else if s.now >= me.waitFrom + me.budget then StopWaiting(s, c, i, Sweeping(i + 1))
      else s
    case Retrying(i) => if i < |me.candidates| then TryClaim(s, c, i, Sweeping(i + 1)) else s
    case Won(_) => s
    case Lost(_) => s
  }

  /** A teardown first takes the key over, if it still holds the abandoned claim; a marker
      it wrote is the only thing it deletes. */
  function WorkStep(s: State, t: nat): State
    requires t < |s.tasks|
  {
    var task := s.tasks[t];
    match task.progress
    case Marking =>
      if HeldBy(s, task.key, task.observed) && Stale(s, task.key) then
        s.(keys := s.keys[task.key := Drain(s.nextToken, s.now + DRAIN_MARKER_TTL)],
           tasks := s.tasks[t := task.(progress := Working(s.nextToken))], nextToken := s.nextToken + 1)
      else s.(tasks := s.tasks[t := task.(progress := Ended(false))])
    case Working(token) =>
      s.(keys := if MarkedBy(s, task.key, token) then s.keys - {task.key} else s.keys,
         tasks := s.tasks[t := task.(progress := Ended(true))])
    case Ended(_) => s
  }

  function Step(s: State, e: Event): State
    requires Enabled(s, e)
  {
    match e
    case Tick(seconds) => s.(now := s.now + seconds)
    case Arrive(candidates) =>
      s.(claimers := s.claimers + [Claimer(candidates, s.now, Trying(0), s.now, s.now, 0, 0, {})])
    case Advance(c) => AdvanceStep(s, c)
    case Work(t) => WorkStep(s, t)
    case Heartbeat(k, claim) =>
      if HeldBy(s, k, claim) then s.(keys := s.keys[k := Session(claim, s.now, s.now + SESSION_TTL)]) else s
    case Exit(k, claim) =>
      if HeldBy(s, k, claim) then
        s.(keys := s.keys[k := Drain(s.nextToken, s.now + DRAIN_MARKER_TTL)], nextToken := s.nextToken + 1)
      else s
    case Release(k, claim) => if HeldBy(s, k, claim) then s.(keys := s.keys - {k}) else s
    case KeepMarker(k, token) =>
      if MarkedBy(s, k, token) then s.(keys := s.keys[k := Drain(token, s.now + DRAIN_MARKER_TTL)]) else s
    case DropMarker(k, token) => if MarkedBy(s, k, token) then s.(keys := s.keys - {k}) else s
  }

  predicate Possible(s: State, es: seq<Event>)
    decreases |es|
  {
    es != [] ==> Enabled(s, es[0]) && Possible(Step(s, es[0]), es[1..])
  }

  function Run(s: State, es: seq<Event>): State
    requires Possible(s, es)
    decreases |es|
  {
    if es == [] then s else Run(Step(s, es[0]), es[1..])
  }

  // ---- One step ----

  /** A container is won only from a key with nothing live on it, and then holds this claim. */
  lemma WinsOnlyAFreeContainer(s: State, e: Event, c: nat)
    requires Enabled(s, e) && c < |s.claimers| && !s.claimers[c].phase.Won?
    requires Step(s, e).claimers[c].phase.Won?
    ensures var i, me := Step(s, e).claimers[c].phase.next, s.claimers[c];
            i < |me.candidates| && Live(s, me.candidates[i]).None? && HeldBy(Step(s, e), me.candidates[i], c)
  {
  }

  /** A holder loses its container only by running out its TTL, by its own exit or release,
      or to a teardown that found it stale at that very instant. */
  lemma HolderDisplacedOnly(s: State, e: Event, k: Key, claim: nat)
    requires Enabled(s, e) && HeldBy(s, k, claim) && !HeldBy(Step(s, e), k, claim)
    ensures || (e.Tick? && s.now + e.seconds >= s.keys[k].expires)
            || e == Exit(k, claim) || e == Release(k, claim)
            || (e.Work? && Stale(s, k) && s.tasks[e.task] == Task(k, claim, Marking))
  {
    if e.Advance? {
      AdvanceKeepsHolders(s, e.claimer, k);
    }
  }

  lemma AdvanceKeepsHolders(s: State, c: nat, k: Key)
    requires c < |s.claimers| && Live(s, k).Some?
    ensures Live(AdvanceStep(s, c), k) == Live(s, k)
  {
  }

  /** A draining container changes hands only when its marker is dropped or runs out. */
  lemma MarkerDisplacedOnly(s: State, e: Event, k: Key, token: nat)
    requires Enabled(s, e) && MarkedBy(s, k, token) && !MarkedBy(Step(s, e), k, token)
    ensures || (e.Tick? && s.now + e.seconds >= s.keys[k].expires)
            || e == DropMarker(k, token)
            || (e.Work? && s.tasks[e.task].key == k && s.tasks[e.task].progress == Working(token))
  {
    if e.Advance? {
      AdvanceKeepsHolders(s, e.claimer, k);
    }
  }

  // ---- Whole runs: an attended session is never torn down ----

  /** From here on the claim's holder stays: its heartbeats are never more than the stale
      window apart, and nobody exits or releases it. `beat` is when it was last seen. */
  predicate Attended(s: State, es: seq<Event>, k: Key, claim: nat, beat: int)
    requires Possible(s, es)
    decreases |es|
  {
    && s.now - beat <= STALE_SECONDS
    && (es != [] ==>
          && es[0] != Exit(k, claim) && es[0] != Release(k, claim)
          && Attended(Step(s, es[0]), es[1..], k, claim, if es[0] == Heartbeat(k, claim) then s.now else beat))
  }

  predicate Seen(s: State, k: Key, claim: nat, beat: int) {
    HeldBy(s, k, claim) && s.keys[k].lastSeen >= beat && s.keys[k].expires >= beat + SESSION_TTL
  }

  lemma SeenStays(s: State, e: Event, k: Key, claim: nat, beat: int)
    requires Enabled(s, e) && Seen(s, k, claim, beat) && s.now - beat <= STALE_SECONDS
    requires e != Exit(k, claim) && e != Release(k, claim)
    requires e.Tick? ==> s.now + e.seconds - beat <= STALE_SECONDS
    ensures Seen(Step(s, e), k, claim, if e == Heartbeat(k, claim) then s.now else beat)
  {
    if e.Advance? {
      AdvanceKeepsHolders(s, e.claimer, k);
    }
  }

  /** Whatever claims, sweeps, teardowns and exits run beside it, a session whose player
      keeps beating holds its container to the end of the run. */
  lemma {:induction false} AttendedSessionIsKept(s: State, es: seq<Event>, k: Key, claim: nat, beat: int)
    requires Possible(s, es) && Seen(s, k, claim, beat) && Attended(s, es, k, claim, beat)
    ensures HeldBy(Run(s, es), k, claim)
    decreases |es|
  {
    if es != [] {
      var beat' := if es[0] == Heartbeat(k, claim) then s.now else beat;
      SeenStays(s, es[0], k, claim, beat);
      AttendedSessionIsKept(Step(s, es[0]), es[1..], k, claim, beat');
    }
  }

  /** Likewise a drain: the work behind it refreshes the marker and nobody drops it. */
  predicate Drained(s: State, es: seq<Event>, k: Key, token: nat, kept: int)
    requires Possible(s, es)
    decreases |es|
  {
    && s.now - kept < DRAIN_MARKER_TTL
    && (es != [] ==>
          && es[0] != DropMarker(k, token)
          && !(es[0].Work? && s.tasks[es[0].task].progress == Working(token))
          && Drained(Step(s, es[0]), es[1..], k, token, if es[0] == KeepMarker(k, token) then s.now else kept))
  }

  lemma {:induction false} DrainIsKept(s: State, es: seq<Event>, k: Key, token: nat, kept: int)
    requires Possible(s, es) && MarkedBy(s, k, token) && s.keys[k].expires >= kept + DRAIN_MARKER_TTL
    requires Drained(s, es, k, token, kept)
    ensures MarkedBy(Run(s, es), k, token)
    decreases |es|
  {
    if es != [] {
      var kept' := if es[0] == KeepMarker(k, token) then s.now else kept;
      MarkerStays(s, es[0], k, token, kept);
      DrainIsKept(Step(s, es[0]), es[1..], k, token, kept');
    }
  }

  lemma MarkerStays(s: State, e: Event, k: Key, token: nat, kept: int)
    requires Enabled(s, e) && MarkedBy(s, k, token) && s.keys[k].expires >= kept + DRAIN_MARKER_TTL
    requires e != DropMarker(k, token) && !(e.Work? && s.tasks[e.task].progress == Working(token))
    requires e.Tick? ==> s.now + e.seconds - kept < DRAIN_MARKER_TTL
    ensures MarkedBy(Step(s, e), k, token)
    ensures Step(s, e).keys[k].expires >= (if e == KeepMarker(k, token) then s.now else kept) + DRAIN_MARKER_TTL
  {
    if e.Advance? {
      AdvanceKeepsHolders(s, e.claimer, k);
    }
  }

  // ---- Whole runs: order of eviction and the shared budget ----

  /** A claimer looks for abandoned holders only after every candidate has refused it, and
      its waits fit in one budget counted from when that sweep began. */
  predicate Fair(c: Claimer, now: int) {
    && c.candidates != []
    && (c.phase.Trying? ==> c.waited == 0 && RefusedUpTo(c, c.phase.next))
    && (c.phase.Sweeping? || c.phase.Waiting? || c.phase.Retrying? ==>
          RefusedUpTo(c, |c.candidates|) && c.waited <= Elapsed(c, now))
    && (c.phase.Waiting? ==>
          && c.waited <= Elapsed(c, c.waitFrom) && c.waitFrom <= now <= c.waitFrom + c.budget
          && c.budget == if c.deadline > c.waitFrom then c.deadline - c.waitFrom else 0)
    && 0 <= c.waited <= ABANDONED_TEARDOWN_WAIT
  }

  function Elapsed(c: Claimer, now: int): int { now - (c.deadline - ABANDONED_TEARDOWN_WAIT) }

  predicate RefusedUpTo(c: Claimer, n: nat) {
    forall i | 0 <= i < n && i < |c.candidates| :: c.candidates[i] in c.refused
  }

  predicate AllFair(s: State) { forall c | 0 <= c < |s.claimers| :: Fair(s.claimers[c], s.now) }

  lemma StepStaysFair(s: State, e: Event)
    requires Enabled(s, e) && AllFair(s)
    ensures AllFair(Step(s, e))
  {
    if e.Advance? {
      AdvanceStaysFair(s, e.claimer);
    }
  }

  lemma AdvanceStaysFair(s: State, c: nat)
    requires c < |s.claimers| && AllFair(s)
    ensures AllFair(AdvanceStep(s, c))
  {
    var s' := AdvanceStep(s, c);
    assert s'.now == s.now && |s'.claimers| == |s.claimers|;
    assert forall d | 0 <= d < |s.claimers| && d != c :: s'.claimers[d] == s.claimers[d];
    AdvanceIsFair(s, c);
  }

  lemma AdvanceIsFair(s: State, c: nat)
    requires c < |s.claimers| && Fair(s.claimers[c], s.now)
    ensures Fair(AdvanceStep(s, c).claimers[c], s.now)
  {
  }

  lemma {:induction false} RunStaysFair(s: State, es: seq<Event>)
    requires Possible(s, es) && AllFair(s)
    ensures AllFair(Run(s, es))
    decreases |es|
  {
    if es != [] {
      StepStaysFair(s, es[0]);
      RunStaysFair(Step(s, es[0]), es[1..]);
    }
  }

  /** In every reachable state: a claimer that hands a holder to teardown has been refused by
      every candidate, and the budget it grants is what is left of its one shared wait. */
  lemma EvictsLastWithinBudget(es: seq<Event>, c: nat)
    requires Possible(START, es) && c < |Run(START, es).claimers|
    ensures var s := Run(START, es);
            var me, me' := s.claimers[c], AdvanceStep(s, c).claimers[c];
            !me.phase.Waiting? && me'.phase.Waiting? ==>
              && (forall i | 0 <= i < |me.candidates| :: me.candidates[i] in me.refused)
              && Stale(s, me.candidates[me'.phase.next])
              && 0 <= me'.budget && me'.waited + me'.budget <= ABANDONED_TEARDOWN_WAIT
  {
    RunStaysFair(START, es);
    var s := Run(START, es);
    assert Fair(s.claimers[c], s.now);
  }

  // ---- Whole runs: how long a claim waits ----

  /** When the claimer's last candidate had refused it and its look for abandoned holders began. */
  function SweepBegan(s: State, es: seq<Event>, c: nat): Option<int>
    requires Possible(s, es)
    decreases |es|
  {
    if es == [] then None
    else if es[0] == Advance(c) && s.claimers[c].phase.Trying? && s.claimers[c].phase.next >= |s.claimers[c].candidates| then
      Some(s.now)
    else SweepBegan(Step(s, es[0]), es[1..], c)
  }

  predicate Looking(s: State, c: nat) {
    c < |s.claimers| && (s.claimers[c].phase.Sweeping? || s.claimers[c].phase.Waiting? || s.claimers[c].phase.Retrying?)
  }

  predicate Settled(s: State, c: nat) { c < |s.claimers| && (s.claimers[c].phase.Won? || s.claimers[c].phase.Lost?) }

  /** Once it looks, a claimer never tries from the front again, and its deadline stands. */
  lemma LooksOn(s: State, e: Event, c: nat)
    requires Enabled(s, e) && (Looking(s, c) || Settled(s, c))
    ensures Looking(Step(s, e), c) || Settled(Step(s, e), c)
    ensures Looking(Step(s, e), c) ==> Looking(s, c) && Step(s, e).claimers[c].deadline == s.claimers[c].deadline
  {
  }

  lemma {:induction false} LooksToTheEnd(s: State, es: seq<Event>, c: nat)
    requires Possible(s, es) && (Looking(s, c) || Settled(s, c))
    ensures SweepBegan(s, es, c) == None
    ensures Looking(Run(s, es), c) ==> Looking(s, c) && Run(s, es).claimers[c].deadline == s.claimers[c].deadline
    decreases |es|
  {
    if es != [] {
      LooksOn(s, es[0], c);
      LooksToTheEnd(Step(s, es[0]), es[1..], c);
    }
    hide Step, Enabled;
  }

  /** A claimer begins to look only by its own step, past its last candidate. */
  lemma BeginsToLook(s: State, e: Event, c: nat)
    requires Enabled(s, e) && !Looking(s, c) && Looking(Step(s, e), c)
    ensures e == Advance(c) && s.claimers[c].phase.Trying? && s.claimers[c].phase.next >= |s.claimers[c].candidates|
    ensures Step(s, e).claimers[c].deadline == s.now + 30
  {
  }

  lemma {:induction false} DeadlineIsFixed(s: State, es: seq<Event>, c: nat)
    requires Possible(s, es) && !Looking(s, c) && !Settled(s, c)
    ensures Looking(Run(s, es), c) ==>
              SweepBegan(s, es, c).Some? && Run(s, es).claimers[c].deadline == SweepBegan(s, es, c).value + 30
    decreases |es|
  {
    if es != [] {
      var t := Step(s, es[0]);
      if Looking(t, c) {
        BeginsToLook(s, es[0], c);
        LooksToTheEnd(t, es[1..], c);
      } else if Settled(t, c) {
        LooksToTheEnd(t, es[1..], c);
      } else {
        if es[0] == Advance(c) { KeepsTrying(s, c); }
        DeadlineIsFixed(t, es[1..], c);
      }
    }
    hide Step, Enabled;
  }

  lemma KeepsTrying(s: State, c: nat)
    requires c < |s.claimers| && !Looking(s, c) && !Looking(AdvanceStep(s, c), c)
    ensures s.claimers[c].phase.Trying? ==> s.claimers[c].phase.next < |s.claimers[c].candidates|
  {
  }

  /** In every reachable state: a claim that hands an abandoned holder over waits for exactly what
      is left of the 30 seconds since every candidate had refused it. */
  lemma WaitsExactly(es: seq<Event>, c: nat)
    requires Possible(START, es) && c < |Run(START, es).claimers|
    requires !Run(START, es).claimers[c].phase.Waiting? && AdvanceStep(Run(START, es), c).claimers[c].phase.Waiting?
    ensures var s, began := Run(START, es), SweepBegan(START, es, c);
            && began.Some?
            && AdvanceStep(s, c).claimers[c].waitFrom == s.now
            && AdvanceStep(s, c).claimers[c].budget == if began.value + 30 > s.now then began.value + 30 - s.now else 0
  {
    var s := Run(START, es);
    HandsOver(s, c);
    DeadlineIsFixed(START, es, c);
    hide Run, SweepBegan, AdvanceStep;
  }

  lemma HandsOver(s: State, c: nat)
    requires c < |s.claimers| && !s.claimers[c].phase.Waiting? && AdvanceStep(s, c).claimers[c].phase.Waiting?
    ensures Looking(s, c)
    ensures var me := AdvanceStep(s, c).claimers[c];
            me.waitFrom == s.now && me.budget == if s.claimers[c].deadline > s.now then s.claimers[c].deadline - s.now else 0
  {
  }

  /** A wait goes on until the teardown ends or the time is up, and a teardown that ended well
      has the claim try its container again. */
  lemma WaitEndsExactly(s: State, c: nat, i: nat, t: nat)
    requires c < |s.claimers| && t < |s.tasks| && s.claimers[c].phase == Waiting(i, t)
    ensures var s', me := AdvanceStep(s, c), s.claimers[c];
            s'.claimers[c].phase ==
              if s.tasks[t].progress == Ended(true) then Retrying(i)
              else if s.tasks[t].progress == Ended(false) || s.now - me.waitFrom >= me.budget then Sweeping(i + 1)
              else Waiting(i, t)
  {
  }

  // ---- Whole runs: one teardown behind a marker ----

  /** Tokens are fresh, so no two teardowns work behind the same marker. */
  predicate Tokens(s: State) {
    && (forall t | 0 <= t < |s.tasks| && s.tasks[t].progress.Working? :: s.tasks[t].progress.token < s.nextToken)
    && (forall t, u | 0 <= t < u < |s.tasks| && s.tasks[t].progress.Working? && s.tasks[u].progress.Working? ::
          s.tasks[t].progress.token != s.tasks[u].progress.token)
    && (forall k | k in s.keys && s.keys[k].Drain? :: s.keys[k].token < s.nextToken)
  }

  lemma AdvanceKeepsTokens(s: State, c: nat)
    requires c < |s.claimers| && Tokens(s)
    ensures Tokens(AdvanceStep(s, c))
  {
  }

  lemma WorkKeepsTokens(s: State, t: nat)
    requires t < |s.tasks| && Tokens(s)
    ensures Tokens(WorkStep(s, t))
  {
  }

  lemma StepKeepsTokens(s: State, e: Event)
    requires Enabled(s, e) && Tokens(s)
    ensures Tokens(Step(s, e))
  {
    if e.Advance? { AdvanceKeepsTokens(s, e.claimer); }
    if e.Work? { WorkKeepsTokens(s, e.task); }
    hide AdvanceStep, WorkStep, Enabled;
  }

  lemma {:induction false} RunKeepsTokens(s: State, es: seq<Event>)
    requires Possible(s, es) && Tokens(s)
    ensures Tokens(Run(s, es))
    decreases |es|
  {
    if es != [] {
      StepKeepsTokens(s, es[0]);
      RunKeepsTokens(Step(s, es[0]), es[1..]);
    }
  }

  /** While a teardown's marker stands, no other teardown works on that container behind it
      and no step of any other starts one there. */
  lemma OneTeardownPerMarker(es: seq<Event>, t: nat, u: nat)
    requires Possible(START, es)
    requires var s := Run(START, es);
             t < |s.tasks| && u < |s.tasks| && t != u && s.tasks[t].progress.Working?
             && MarkedBy(s, s.tasks[t].key, s.tasks[t].progress.token) && s.tasks[u].key == s.tasks[t].key
    ensures var s := Run(START, es);
            && s.tasks[u].progress != s.tasks[t].progress
            && MarkedBy(WorkStep(s, u), s.tasks[t].key, s.tasks[t].progress.token)
  {
    RunKeepsTokens(START, es);
  }

  // ---- Whole runs: no container is won while a teardown of it works ----

  /** The teardown still works, and the marker it wrote has run out without being refreshed. */
  predicate Lapsed(s: State, t: nat) {
    && t < |s.tasks| && s.tasks[t].progress.Working? && s.tasks[t].key in s.keys
    && s.keys[s.tasks[t].key].Drain? && s.keys[s.tasks[t].key].token == s.tasks[t].progress.token
    && s.now >= s.keys[s.tasks[t].key].expires
  }

  predicate EverLapses(s: State, es: seq<Event>, t: nat)
    requires Possible(s, es)
    decreases |es|
  {
    Lapsed(s, t) || (es != [] && EverLapses(Step(s, es[0]), es[1..], t))
  }

  /** Nobody but the teardown itself drops its marker. */
  predicate NeverDropped(s: State, es: seq<Event>, t: nat)
    requires Possible(s, es)
    decreases |es|
  {
    es != [] ==>
      && !(t < |s.tasks| && s.tasks[t].progress.Working?
           && es[0] == DropMarker(s.tasks[t].key, s.tasks[t].progress.token))
      && NeverDropped(Step(s, es[0]), es[1..], t)
  }

  predicate Guarded(s: State, t: nat) {
    t < |s.tasks| && s.tasks[t].progress.Working? ==> MarkedBy(s, s.tasks[t].key, s.tasks[t].progress.token)
  }

  lemma StepStaysGuarded(s: State, e: Event, t: nat)
    requires Enabled(s, e) && Tokens(s) && Guarded(s, t) && !Lapsed(Step(s, e), t)
    requires t < |s.tasks| && s.tasks[t].progress.Working? ==> e != DropMarker(s.tasks[t].key, s.tasks[t].progress.token)
    ensures Guarded(Step(s, e), t)
  {
    var s' := Step(s, e);
    TasksStepAlong(s, e, t);
    if t < |s.tasks| && s.tasks[t].progress.Working? && s'.tasks[t].progress.Working? {
      var k, token := s.tasks[t].key, s.tasks[t].progress.token;
      if !MarkedBy(s', k, token) {
        MarkerDisplacedOnly(s, e, k, token);
      }
    }
  }

  /** A teardown starts unmarked, and from then on only its own work moves it. */
  lemma TasksStepAlong(s: State, e: Event, t: nat)
    requires Enabled(s, e)
    ensures var s' := Step(s, e);
            && |s.tasks| <= |s'.tasks|
            && (|s.tasks| <= t < |s'.tasks| ==> s'.tasks[t].progress == Marking)
            && (t < |s.tasks| && e != Work(t) ==> s'.tasks[t] == s.tasks[t])
            && (t < |s.tasks| && e == Work(t) && s.tasks[t].progress.Working? ==> s'.tasks[t].progress.Ended?)
  {
  }

  lemma {:induction false} GuardedAlong(s: State, es: seq<Event>, t: nat)
    requires Possible(s, es) && Tokens(s) && Guarded(s, t) && NeverDropped(s, es, t) && !EverLapses(s, es, t)
    ensures Guarded(Run(s, es), t)
    decreases |es|
  {
    if es != [] {
      StepStaysGuarded(s, es[0], t);
      StepKeepsTokens(s, es[0]);
      GuardedAlong(Step(s, es[0]), es[1..], t);
    }
    hide Tokens, Guarded, Step, Lapsed, Enabled;
  }

  /** In every run: while a teardown of a container works, no claim holds or wins that container,
      unless the marker has lapsed on the way. */
  lemma NothingWonOverATeardown(es: seq<Event>, t: nat, claim: nat)
    requires Possible(START, es) && NeverDropped(START, es, t) && !EverLapses(START, es, t)
    requires t < |Run(START, es).tasks| && Run(START, es).tasks[t].progress.Working?
    ensures var s := Run(START, es);
            var k := s.tasks[t].key;
            && !HeldBy(s, k, claim)
            && (claim < |s.claimers| ==> !HeldBy(AdvanceStep(s, claim), k, claim))
  {
    GuardedAlong(START, es, t);
    var s := Run(START, es);
    if claim < |s.claimers| { AdvanceKeepsHolders(s, claim, s.tasks[t].key); }
    hide Run, EverLapses, NeverDropped, AdvanceStep;
  }

  /** Once it has, the next claim that tries the container wins it, though the teardown works. */
  lemma LapsedIsWon(s: State, t: nat, claim: nat)
    requires Lapsed(s, t) && claim < |s.claimers| && s.claimers[claim].phase.Trying?
    requires s.claimers[claim].phase.next < |s.claimers[claim].candidates|
    requires s.claimers[claim].candidates[s.claimers[claim].phase.next] == s.tasks[t].key
    ensures var s' := AdvanceStep(s, claim);
            && s'.claimers[claim].phase == Won(s.claimers[claim].phase.next) && HeldBy(s', s.tasks[t].key, claim)
            && s'.tasks[t] == s.tasks[t]
  {
  }

  // ---- A claim left to itself ----

  function AdvanceTimes(s: State, c: nat, n: nat): (s': State)
    requires c < |s.claimers|
    ensures |s'.claimers| == |s.claimers|
  {
    if n == 0 then s else AdvanceStep(AdvanceTimes(s, c, n - 1), c)
  }

  /** A claim that nobody interferes with wins the first free container in config order, for
      six hours, as seen when it arrived, and touches no other key. */
  lemma {:induction false} FirstFreeWins(s: State, c: nat, i: nat)
    requires c < |s.claimers| && s.claimers[c].phase == Trying(0) && i < |s.claimers[c].candidates|
    requires forall j | 0 <= j < i :: Live(s, s.claimers[c].candidates[j]).Some?
    requires Live(s, s.claimers[c].candidates[i]).None?
    ensures var s', me := AdvanceTimes(s, c, i + 1), s.claimers[c];
            && s'.claimers[c].phase == Won(i)
            && s'.keys == s.keys[me.candidates[i] := Session(c, me.born, s.now + 21600)]
  {
    TriesInOrder(s, c, i);
  }

  lemma {:induction false} TriesInOrder(s: State, c: nat, i: nat)
    requires c < |s.claimers| && s.claimers[c].phase == Trying(0) && i <= |s.claimers[c].candidates|
    requires forall j | 0 <= j < i :: Live(s, s.claimers[c].candidates[j]).Some?
    ensures var s', me := AdvanceTimes(s, c, i), s.claimers[c];
            && s' == s.(claimers := s'.claimers) && |s'.claimers| == |s.claimers|
            && s'.claimers[c] == me.(phase := Trying(i), refused := me.refused + Members(me.candidates[..i]))
  {
    hide AdvanceStep, Members;
    var me := s.claimers[c];
    if i == 0 {
      NoneYet(me.refused, me.candidates);
    } else {
      TriesInOrder(s, c, i - 1);
      RefusedOnce(AdvanceTimes(s, c, i - 1), c, i - 1);
      OneMoreRefused(me.refused, me.candidates, i);
    }
  }

  lemma RefusedOnce(s: State, c: nat, i: nat)
    requires c < |s.claimers| && s.claimers[c].phase == Trying(i) && i < |s.claimers[c].candidates|
    requires Live(s, s.claimers[c].candidates[i]).Some?
    ensures var me := s.claimers[c];
            AdvanceStep(s, c) == SetClaimer(s, c, me.(phase := Trying(i + 1), refused := me.refused + {me.candidates[i]}))
  {
  }

  lemma NoneYet(refused: set<Key>, candidates: seq<Key>)
    ensures refused + Members(candidates[..0]) == refused
  {
  }

  lemma OneMoreRefused(refused: set<Key>, candidates: seq<Key>, i: nat)
    requires 0 < i <= |candidates|
    ensures refused + Members(candidates[..i]) == refused + Members(candidates[..i - 1]) + {candidates[i - 1]}
  {
    assert candidates[..i] == candidates[..i - 1] + [candidates[i - 1]];
  }

  /** With every container held it has been refused by all of them, and then begins to look for
      an abandoned one. */
  lemma AllHeldIsSwept(s: State, c: nat)
    requires c < |s.claimers| && s.claimers[c].phase == Trying(0)
    requires forall k | k in s.claimers[c].candidates :: Live(s, k).Some?
    ensures var me := s.claimers[c];
            var me' := AdvanceTimes(s, c, |me.candidates| + 1).claimers[c];
            me'.phase == Sweeping(0) && me'.deadline == s.now + 30 && me'.refused == me.refused + Members(me.candidates)
  {
    var me := s.claimers[c];
    TriesInOrder(s, c, |me.candidates|);
    assert me.candidates[..|me.candidates|] == me.candidates;
    assert AdvanceTimes(s, c, |me.candidates| + 1) == AdvanceStep(AdvanceTimes(s, c, |me.candidates|), c);
    hide AdvanceTimes;
  }

  /** In every reachable state: a claim is refused exactly when its look for abandoned holders has
      passed every candidate, each of which had refused it, and the refusal says whether the first
      of them is draining. */
  lemma RefusedByAll(es: seq<Event>, c: nat)
    requires Possible(START, es) && c < |Run(START, es).claimers|
    ensures var s := Run(START, es);
            var me, me' := s.claimers[c], AdvanceStep(s, c).claimers[c];
            && |me.candidates| > 0
            && (me'.phase.Lost? <==> me.phase.Lost? || (me.phase.Sweeping? && me.phase.next >= |me.candidates|))
            && (!me.phase.Lost? && me'.phase.Lost? ==>
                  && (forall k | k in me.candidates :: k in me.refused)
                  && (me'.phase.draining <==> exists token :: MarkedBy(s, me.candidates[0], token)))
  {
    RunStaysFair(START, es);
    var s := Run(START, es);
    assert Fair(s.claimers[c], s.now);
    var me, me' := s.claimers[c], AdvanceStep(s, c).claimers[c];
    if !me.phase.Lost? && me'.phase.Lost? && me'.phase.draining {
      assert MarkedBy(s, me.candidates[0], s.keys[me.candidates[0]].token);
    }
  }

  /** A claim is known by the moment it arrived. */
  lemma BornOnArrival(s: State, e: Event)
    requires Enabled(s, e)
    ensures |s.claimers| <= |Step(s, e).claimers|
    ensures forall c | 0 <= c < |s.claimers| ::
              Step(s, e).claimers[c].born == s.claimers[c].born && Step(s, e).claimers[c].candidates == s.claimers[c].candidates
    ensures e.Arrive? <==> |Step(s, e).claimers| == |s.claimers| + 1
    ensures forall c | |s.claimers| <= c < |Step(s, e).claimers| ::
              var me := Step(s, e).claimers[c];
              me.born == s.now && e == Arrive(me.candidates) && me.phase == Trying(0) && me.waited == 0 && me.refused == {}
  {
    if e.Advance? { AdvanceKeepsBirth(s, e.claimer); }
    hide AdvanceStep, WorkStep;
  }

  lemma AdvanceKeepsBirth(s: State, c: nat)
    requires c < |s.claimers|
    ensures |AdvanceStep(s, c).claimers| == |s.claimers|
    ensures forall d | 0 <= d < |s.claimers| ::
              AdvanceStep(s, c).claimers[d].born == s.claimers[d].born
              && AdvanceStep(s, c).claimers[d].candidates == s.claimers[d].candidates
  {
  }

  /** A container is held as last seen when the claim arrived, so a claim that took more than
      three minutes to win it counts as abandoned at once. */
  lemma StaleOnceWonExactly(s: State, c: nat)
    requires c < |s.claimers| && !s.claimers[c].phase.Won? && AdvanceStep(s, c).claimers[c].phase.Won?
    ensures var i := AdvanceStep(s, c).claimers[c].phase.next;
            && i < |s.claimers[c].candidates|
            && (Stale(AdvanceStep(s, c), s.claimers[c].candidates[i]) <==> s.now - s.claimers[c].born > 180)
  {
  }

  // ---- Ends and beats ----

  /** An exit leaves the container to nobody for up to a minute: a marker of its own token that
      nobody wins over, and nothing else changes. Anyone else's exit does nothing. */
  lemma ExitDrains(s: State, k: Key, claim: nat, seconds: nat)
    ensures var s' := Step(s, Exit(k, claim));
            if HeldBy(s, k, claim) then
              && s' == s.(keys := s.keys[k := Drain(s.nextToken, s.now + 60)], nextToken := s.nextToken + 1)
              && (MarkedBy(s'.(now := s.now + seconds), k, s.nextToken) <==> seconds < 60)
            else s' == s
  {
  }

  /** Exits, like every other event, leave the keys they do not name alone. */
  lemma OtherKeysStay(s: State, e: Event, k: Key)
    requires Enabled(s, e) && (e.Heartbeat? || e.Exit? || e.Release? || e.KeepMarker? || e.DropMarker?) && e.key != k
    ensures Live(Step(s, e), k) == Live(s, k)
  {
  }

  /** A session outlives its last beat by six hours if nobody takes it over, and counts as
      abandoned after three minutes. */
  lemma BeatLastsExactly(s: State, k: Key, claim: nat, seconds: nat)
    requires HeldBy(s, k, claim)
    ensures var s' := Step(s, Heartbeat(k, claim)).(now := s.now + seconds);
            && (HeldBy(s', k, claim) <==> seconds < 21600)
            && (Stale(s', k) <==> 180 < seconds < 21600)
  {
  }

  /** A released container is free at once, and only its holder's claim can release it. */
  lemma ReleaseFrees(s: State, k: Key, claim: nat)
    ensures var s' := Step(s, Release(k, claim));
            if HeldBy(s, k, claim) then Live(s', k).None? && s' == s.(keys := s'.keys) else s' == s
  {
  }

  /** A refreshed marker lasts another minute, a dropped one leaves the container free, and a
      marker answers to its own token alone. */
  lemma MarkerKeptAndDropped(s: State, k: Key, token: nat, seconds: nat)
    ensures var s' := Step(s, KeepMarker(k, token));
            if MarkedBy(s, k, token) then
              s' == s.(keys := s'.keys) && (MarkedBy(s'.(now := s.now + seconds), k, token) <==> seconds < 60)
            else s' == s
    ensures var s' := Step(s, DropMarker(k, token));
            if MarkedBy(s, k, token) then s' == s.(keys := s'.keys) && Live(s', k).None? else s' == s
  {
  }

  /** A retry that finds the container taken again leaves everything to its new holder and looks
      at the next candidate. */
  lemma RetryGoesOn(s: State, c: nat, i: nat)
    requires c < |s.claimers| && s.claimers[c].phase == Retrying(i) && i < |s.claimers[c].candidates|
    requires Live(s, s.claimers[c].candidates[i]).Some?
    ensures AdvanceStep(s, c).keys == s.keys && AdvanceStep(s, c).claimers[c].phase == Sweeping(i + 1)
  {
  }

  // ---- Whole runs: the time a claim spends waiting ----

  /** The seconds that pass while the claimer waits for a teardown. */
  function SecondsWaited(s: State, es: seq<Event>, c: nat): nat
    requires Possible(s, es)
    decreases |es|
  {
    if es == [] then 0
    else (if es[0].Tick? && c < |s.claimers| && s.claimers[c].phase.Waiting? then es[0].seconds else 0)
         + SecondsWaited(Step(s, es[0]), es[1..], c)
  }

  function Spent(s: State, c: nat): int {
    if c >= |s.claimers| then 0
    else s.claimers[c].waited + if s.claimers[c].phase.Waiting? then s.now - s.claimers[c].waitFrom else 0
  }

  lemma SpentStepwise(s: State, e: Event, c: nat)
    requires Enabled(s, e)
    ensures Spent(Step(s, e), c) ==
            Spent(s, c) + if e.Tick? && c < |s.claimers| && s.claimers[c].phase.Waiting? then e.seconds else 0
  {
    if e.Advance? && e.claimer == c { SpentStays(s, c); }
  }

  lemma SpentStays(s: State, c: nat)
    requires c < |s.claimers|
    ensures Spent(AdvanceStep(s, c), c) == Spent(s, c)
  {
  }

  lemma {:induction false} SpentIsWaited(s: State, es: seq<Event>, c: nat)
    requires Possible(s, es)
    ensures Spent(Run(s, es), c) == Spent(s, c) + SecondsWaited(s, es, c)
    decreases |es|
  {
    if es != [] {
      SpentStepwise(s, es[0], c);
      SpentIsWaited(Step(s, es[0]), es[1..], c);
    }
    hide Step, Enabled, Spent;
  }

  /** In every run a claim spends at most half a minute waiting, however many abandoned holders
      it hands over. */
  lemma WaitsHalfAMinuteAtMost(es: seq<Event>, c: nat)
    requires Possible(START, es)
    ensures SecondsWaited(START, es, c) <= 30
  {
    SpentIsWaited(START, es, c);
    RunStaysFair(START, es);
    var s := Run(START, es);
    if c < |s.claimers| {
      var me := s.claimers[c];
      assert Fair(me, s.now);
    }
    hide Run, SecondsWaited;
  }
}
