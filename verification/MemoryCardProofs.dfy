/** What whole-card sync does to a card that was on the container before anyone decided. */
module MemoryCardProofs {
  import opened Common
  import opened MemoryCards

  // ---- Requests over a run ----

  datatype Event =
    | Claiming(claim: Claim)
    | Playing(slot: Option<Content>)
    | Finishing(readable: bool, stores: bool, wipes: bool)

  predicate Sane(w: World) {
    && (w.running.Some? ==> w.running.value in w.cards && w.decision.Some?)
    && forall id | id in w.cards :: id < w.nextCard
  }

  predicate Possible(w: World, e: Event) {
    e.Claiming? && e.claim.mounted.Some? ==> e.claim.mounted.value in w.cards
  }

  function Step(w: World, e: Event): World
    requires Sane(w) && Possible(w, e)
  {
    match e
    case Claiming(c) => ClaimStep(w, c).0
    case Playing(slot) => Play(w, slot)
    case Finishing(readable, stores, wipes) => Finish(w, readable, stores, wipes)
  }

  lemma StepStaysSane(w: World, e: Event)
    requires Sane(w) && Possible(w, e)
    ensures Sane(Step(w, e))
  {
  }

  /** The recorded decision never changes, so the prompt is settled once. */
  lemma DecidedOnce(w: World, e: Event)
    requires Sane(w) && Possible(w, e)
    ensures w.decision.Some? ==> Step(w, e).decision == w.decision
    ensures w.decision.None? && Step(w, e).decision.Some? ==> e.Claiming? && ProbeCard(w, e.claim).Undecided?
  {
  }

  // ---- Refusals ----

  /** A claim that does not launch gives the container back and leaves no card behind; one
      that does has isolated it: the slot is the mounted card's newest version or blank. */
  lemma ClaimsCloseUp(w: World, c: Claim)
    requires Sane(w) && WellFormed(w, c) && w.running.None?
    ensures var (w', outcome) := ClaimStep(w, c);
            if outcome.Launched? then
              w'.running == Some(outcome.card) && outcome.card in w'.cards && w'.slot == Fill(ToPush(w'.cards[outcome.card]))
            else w'.running.None? && w'.cards.Keys == w.cards.Keys
  {
  }

  // ---- The card nobody has decided on yet ----

  /** `x` is on the container and undecided, or somebody said to discard it, or some card
      has it in a version that can be read back. */
  predicate InStore(w: World, x: Content) {
    exists id :: id in w.cards && OnFile(w.cards[id], x)
  }

  predicate OnFile(history: seq<Version>, x: Content) {
    exists i :: 0 <= i < |history| && history[i] == Version(x, true)
  }

  predicate Kept(w: World, x: Content) {
    || (w.slot == Some(x) && w.decision.None?)
    || w.decision == Some(Discard)
    || InStore(w, x)
  }

  /** The claim records "adopt" for the card it found. */
  predicate Adopts(w: World, c: Claim)
    requires WellFormed(w, c)
  {
    && w.running.None? && w.decision.None? && w.slot.Some? && c.readable && c.answer == Some(Adopt)
    && Imports(if c.mounted.Some? then w.cards[c.mounted.value] else [], w.slot.value, c.stores)
  }

  /** The adoption does not last: it went to a blank card that the claim then gives up, or it
      relied on a version whose archive is gone. */
  predicate Forgetful(w: World, c: Claim)
    requires WellFormed(w, c)
  {
    && Adopts(w, c)
    && if c.mounted.None? then !(c.pushes && c.launches) else IsLatest(w.cards[c.mounted.value], w.slot.value)
  }

  lemma StoredOnFile(history: seq<Version>, x: Content)
    ensures !InHistory(history, x) ==> OnFile(Stored(history, x), x)
    ensures OnFile(history, x) ==> OnFile(Stored(history, x), x) && InHistory(history, x)
    ensures forall y :: OnFile(history, y) ==> OnFile(Stored(history, x), y)
    ensures forall y :: y != x && OnFile(Stored(history, x), y) ==> OnFile(history, y)
  {
    var after := Stored(history, x);
    assert forall i | 0 <= i < |history| :: after[i] == history[i];
    if !InHistory(history, x) { assert after[|history|] == Version(x, true); }
  }

  /** A claim keeps an undecided card exactly when it does not adopt it forgetfully: not to
      the blank card of a claim that fails afterwards, and not on the strength of a version
      row whose file is missing. */
  lemma ClaimKeepsExactly(w: World, c: Claim, x: Content)
    requires Sane(w) && WellFormed(w, c) && x != EMPTY_CARD
    requires w.slot == Some(x) && w.decision.None? && !InStore(w, x)
    ensures Kept(ClaimStep(w, c).0, x) <==> !Forgetful(w, c)
  {
    var w' := ClaimStep(w, c).0;
    if Adopts(w, c) {
      AdoptedExactly(w, c, x);
    } else {
      NotAdopted(w, c, x);
    }
  }

  lemma NotAdopted(w: World, c: Claim, x: Content)
    requires Sane(w) && WellFormed(w, c)
    requires w.slot == Some(x) && w.decision.None? && !Adopts(w, c)
    ensures Kept(ClaimStep(w, c).0, x)
  {
    var probe := ProbeCard(w, c);
    if probe.Undecided? && probe.content.Some? {
      assert Mount(w, c).cards[Mount(w, c).running.value] == if c.mounted.Some? then w.cards[c.mounted.value] else [];
      assert c.answer.Some? && c.answer.value == Adopt;
      assert Settle(w, c, probe).None?;
    }
  }

  lemma AdoptedExactly(w: World, c: Claim, x: Content)
    requires Sane(w) && WellFormed(w, c) && Adopts(w, c)
    requires w.slot == Some(x) && w.decision.None? && !InStore(w, x)
    ensures ClaimStep(w, c).0.decision == Some(Adopt)
    ensures InStore(ClaimStep(w, c).0, x) <==> !Forgetful(w, c)
  {
    var w' := ClaimStep(w, c).0;
    var history := if c.mounted.Some? then w.cards[c.mounted.value] else [];
    StoredOnFile(history, x);
    if c.mounted.Some? {
      assert !OnFile(history, x);
      assert w'.cards == w.cards[c.mounted.value := Stored(history, x)];
      if !IsLatest(history, x) { assert OnFile(w'.cards[c.mounted.value], x); }
    } else {
      var kept := c.pushes && c.launches;
      assert w.nextCard !in w.cards;
      assert w'.cards == if kept then w.cards[w.nextCard := Stored([], x)] else w.cards;
      if kept { assert OnFile(w'.cards[w.nextCard], x); }
    }
  }

  /** The slot of an undecided card is overwritten only on a "discard", or when the mounted
      card's newest version row equals it and that version's archive is missing. */
  lemma OverwrittenOnlyOnDiscard(w: World, c: Claim, x: Content)
    requires Sane(w) && WellFormed(w, c) && w.slot == Some(x) && w.decision.None? && x != EMPTY_CARD
    requires ClaimStep(w, c).0.slot != Some(x)
    ensures || c.answer == Some(Discard)
            || (Adopts(w, c) && c.mounted.Some? && IsLatest(w.cards[c.mounted.value], x)
                && !w.cards[c.mounted.value][|w.cards[c.mounted.value]| - 1].onDisk)
  {
    var history := if c.mounted.Some? then w.cards[c.mounted.value] else [];
    assert Mount(w, c).cards[Mount(w, c).running.value] == history;
    assert c.answer.None? || c.answer.value == Adopt || c.answer.value == Discard;
    if !InHistory(history, x) { assert ToPush(Stored(history, x)) == x; }
  }

  // ---- Over whole runs ----

  /** Stored versions outlive every step. */
  lemma StoreGrows(w: World, e: Event, x: Content)
    requires Sane(w) && Possible(w, e) && InStore(w, x)
    ensures InStore(Step(w, e), x)
  {
    var id :| id in w.cards && OnFile(w.cards[id], x);
    var w' := Step(w, e);
    assert id in w'.cards && (w'.cards[id] == w.cards[id] || exists y :: w'.cards[id] == Stored(w.cards[id], y));
    if y :| w'.cards[id] == Stored(w.cards[id], y) { StoredOnFile(w.cards[id], y); }
  }

  lemma StepKeeps(w: World, e: Event, x: Content)
    requires Sane(w) && Possible(w, e) && Kept(w, x) && x != EMPTY_CARD
    requires e.Claiming? && w.slot == Some(x) && w.decision.None? && !InStore(w, x) ==> !Forgetful(w, e.claim)
    ensures Kept(Step(w, e), x)
  {
    if InStore(w, x) {
      StoreGrows(w, e, x);
    } else if w.decision == Some(Discard) {
      DecidedOnce(w, e);
    } else if e.Claiming? {
      ClaimKeepsExactly(w, e.claim, x);
    }
  }

  /** Every claim of the run that finds the card undecided and unstored is careful with it. */
  ghost predicate Careful(w: World, es: seq<Event>, x: Content)
    requires Sane(w)
    decreases |es|
  {
    es != [] ==>
      && Possible(w, es[0])
      && (es[0].Claiming? && w.slot == Some(x) && w.decision.None? && !InStore(w, x) ==> !Forgetful(w, es[0].claim))
      && (StepStaysSane(w, es[0]); Careful(Step(w, es[0]), es[1..], x))
  }

  function Run(w: World, es: seq<Event>, x: Content): (w': World)
    requires Sane(w) && Careful(w, es, x)
    ensures Sane(w')
    decreases |es|
  {
    if es == [] then w
    else
      StepStaysSane(w, es[0]);
      Run(Step(w, es[0]), es[1..], x)
  }

  /** Some claim of the run answered the prompt with "discard". */
  predicate AnsweredDiscard(es: seq<Event>) {
    exists i :: 0 <= i < |es| && es[i].Claiming? && es[i].claim.answer == Some(Discard)
  }

  predicate Untouched(w: World, x: Content) { w.slot == Some(x) && w.decision.None? }

  /** As long as nobody answers "discard", a card stays where it was found or is in the store. */
  lemma StepDiscardsOnlyOnAnswer(w: World, e: Event, x: Content)
    requires Sane(w) && Possible(w, e) && (Untouched(w, x) || InStore(w, x)) && x != EMPTY_CARD
    requires e.Claiming? ==> e.claim.answer != Some(Discard)
    requires e.Claiming? && Untouched(w, x) && !InStore(w, x) ==> !Forgetful(w, e.claim)
    ensures Untouched(Step(w, e), x) || InStore(Step(w, e), x)
  {
    if InStore(w, x) {
      StoreGrows(w, e, x);
    } else if e.Claiming? {
      ClaimKeepsExactly(w, e.claim, x);
      UnansweredIsNotDiscarded(w, e.claim, x);
    }
  }

  lemma UnansweredIsNotDiscarded(w: World, c: Claim, x: Content)
    requires Sane(w) && WellFormed(w, c) && Untouched(w, x) && c.answer != Some(Discard)
    ensures ClaimStep(w, c).0.decision != Some(Discard)
  {
  }

  lemma {:induction false} RunDiscardsOnlyOnAnswer(w: World, es: seq<Event>, x: Content)
    requires Sane(w) && (Untouched(w, x) || InStore(w, x)) && x != EMPTY_CARD && Careful(w, es, x)
    ensures Untouched(Run(w, es, x), x) || InStore(Run(w, es, x), x) || AnsweredDiscard(es)
    decreases |es|
  {
    if es != [] && !AnsweredDiscard(es) {
      assert forall i | 0 <= i < |es[1..]| :: es[1..][i] == es[i + 1];
      StepStaysSane(w, es[0]);
      StepDiscardsOnlyOnAnswer(w, es[0], x);
      RunDiscardsOnlyOnAnswer(Step(w, es[0]), es[1..], x);
      assert !AnsweredDiscard(es[1..]);
    }
    hide Untouched, InStore, Step, Sane;
  }

  /** Over any run of such claims, plays and releases, the card found on the container is still
      there, or stored, or "discard" is on record because some claim answered so. */
  lemma FoundCardIsKept(w: World, es: seq<Event>, x: Content)
    requires Sane(w) && w.slot == Some(x) && w.decision.None? && x != EMPTY_CARD && Careful(w, es, x)
    ensures var w' := Run(w, es, x);
            || (w'.slot == Some(x) && w'.decision.None?)
            || InStore(w', x)
            || (w'.decision == Some(Discard) && AnsweredDiscard(es))
  {
    RunKeeps(w, es, x);
    RunDiscardsOnlyOnAnswer(w, es, x);
    hide Run, InStore, AnsweredDiscard;
  }

  lemma {:induction false} RunKeeps(w: World, es: seq<Event>, x: Content)
    requires Sane(w) && Kept(w, x) && x != EMPTY_CARD && Careful(w, es, x)
    ensures Kept(Run(w, es, x), x)
    decreases |es|
  {
    if es != [] {
      StepStaysSane(w, es[0]);
      StepKeeps(w, es[0], x);
      RunKeeps(Step(w, es[0]), es[1..], x);
    }
  }

  /** What goes wrong otherwise: an adoption into a blank card is undone with the claim, but
      its decision row is not, so the next claim is not asked and wipes the card. */
  lemma ForgottenCardIsLost(w: World, first: Claim, next: Claim, x: Content)
    requires Sane(w) && WellFormed(w, first) && x != EMPTY_CARD
    requires w.slot == Some(x) && !InStore(w, x) && Forgetful(w, first) && first.mounted.None?
    requires next.mounted.None? && next.pushes && next.launches
    ensures var w1 := ClaimStep(w, first).0;
            && w1.slot == Some(x) && w1.decision == Some(Adopt) && w1.running.None? && WellFormed(w1, next)
            && var (w2, outcome) := ClaimStep(w1, next);
               outcome.Launched? && w2.slot.None? && !InStore(w2, x) && w2.decision == Some(Adopt)
  {
    var w1 := ClaimStep(w, first).0;
    assert w.nextCard !in w.cards;
    assert w1.cards == w.cards;
    var w2 := ClaimStep(w1, next).0;
    assert w2.cards == w.cards[w1.nextCard := []];
    forall id | id in w2.cards ensures !OnFile(w2.cards[id], x) {
      if id in w.cards && id != w1.nextCard { assert !OnFile(w.cards[id], x); }
    }
  }

  // ---- A played card whose capture failed ----

  lemma CapturedExactly(w: World, readable: bool, stores: bool, wipes: bool, x: Content)
    requires Sane(w) && w.running.Some? && w.slot == Some(x)
    ensures var w1 := Finish(w, readable, stores, wipes);
            && w1.running.None? && w1.decision == w.decision && w1.nextCard == w.nextCard && w1.cards.Keys == w.cards.Keys
            && (InStore(w1, x) <==> InStore(w, x) || (readable && stores && !InHistory(w.cards[w.running.value], x)))
  {
    var id := w.running.value;
    var w1 := Finish(w, readable, stores, wipes);
    StoredOnFile(w.cards[id], x);
    if InStore(w, x) {
      StoreGrows(w, Finishing(readable, stores, wipes), x);
    }
    if readable && stores {
      assert w1.cards == w.cards[id := Stored(w.cards[id], x)];
      if !InHistory(w.cards[id], x) { assert OnFile(w1.cards[id], x); }
    }
    if InStore(w1, x) && !InStore(w, x) {
      var c :| c in w1.cards && OnFile(w1.cards[c], x);
      assert c in w.cards && !OnFile(w.cards[c], x);
      assert c == id && w1.cards[id] != w.cards[id];
    }
  }

  /** The next claim is not asked about what a finished session left on the container, since
      the decision is on record; so a played card outlives it exactly when it was stored
      before, or the session's end captured it into a history without it. */
  lemma PlayedCardSurvivesExactly(w: World, readable: bool, stores: bool, wipes: bool, next: Claim, x: Content)
    requires Sane(w) && w.running.Some? && w.slot == Some(x) && x != EMPTY_CARD
    requires WellFormed(Finish(w, readable, stores, wipes), next) && next.pushes && next.launches
    ensures var (w2, outcome) := ClaimStep(Finish(w, readable, stores, wipes), next);
            && outcome.Launched?
            && (w2.slot == Some(x) || InStore(w2, x) <==>
                  InStore(w, x) || (readable && stores && !InHistory(w.cards[w.running.value], x)))
  {
    var w1 := Finish(w, readable, stores, wipes);
    CapturedExactly(w, readable, stores, wipes, x);
    NextClaim(w1, next, x);
    hide Finish, Sane, WellFormed, ClaimStep, InStore;
  }

  /** With a decision on record, a claim that launches neither adds to the store nor looks at
      the slot it overwrites. */
  lemma NextClaim(w: World, next: Claim, x: Content)
    requires w.running.None? && w.decision.Some? && WellFormed(w, next) && next.pushes && next.launches && x != EMPTY_CARD
    ensures var (w2, outcome) := ClaimStep(w, next);
            && outcome.Launched? && (InStore(w2, x) <==> InStore(w, x))
            && (w2.slot == Some(x) ==> InStore(w2, x))
  {
    var w2 := ClaimStep(w, next).0;
    if next.mounted.Some? {
      assert w2.cards == w.cards;
    } else {
      assert w.nextCard !in w.cards && w2.cards == w.cards[w.nextCard := []];
    }
    if InStore(w, x) {
      var id :| id in w.cards && OnFile(w.cards[id], x);
      assert OnFile(w2.cards[id], x);
    }
    if InStore(w2, x) {
      var id :| id in w2.cards && OnFile(w2.cards[id], x);
      assert id in w.cards && OnFile(w.cards[id], x);
    }
    var id := w2.running.value;
    if w2.slot == Some(x) { assert OnFile(w2.cards[id], x); }
  }

  // ---- What a claim is answered ----

  /** Every answer a claim can get, read off the container, its record and the claim. */
  lemma AnsweredExactly(w: World, c: Claim)
    requires WellFormed(w, c)
    ensures var outcome := ClaimStep(w, c).1;
            var asked := w.running.None? && w.decision.None?;
            && (outcome == Busy409 <==> w.running.Some?)
            && (outcome == Prompt428 <==> asked && c.answer.None? && (!c.readable || w.slot.Some?))
            && (outcome.Launched? <==>
                  && w.running.None? && c.pushes && c.launches
                  && (asked && c.answer != Some(Discard) ==>
                        && c.readable && (c.answer == None ==> w.slot.None?)
                        && (c.answer == Some(Adopt) ==>
                              && w.slot.Some?
                              && Imports(if c.mounted.Some? then w.cards[c.mounted.value] else [], w.slot.value, c.stores))))
  {
    assert c.answer.None? || c.answer.value == Adopt || c.answer.value == Discard;
    if w.running.None? && w.decision.None? && w.slot.Some? {
      assert Mount(w, c).cards[Mount(w, c).running.value] == if c.mounted.Some? then w.cards[c.mounted.value] else [];
    }
  }

  /** A prompted claim has changed nothing, and answering the prompt lets it through: "discard"
      always, "adopt" into a new card once the found card can be read and stored. */
  lemma PromptIsAnswered(w: World, c: Claim, answer: Decision)
    requires Sane(w) && WellFormed(w, c) && ClaimStep(w, c).1 == Prompt428 && c.pushes && c.launches
    requires answer.Adopt? ==> c.readable && c.stores && c.mounted.None?
    ensures ClaimStep(w, c).0 == w
    ensures ClaimStep(w, c.(answer := Some(answer))).1.Launched?
    ensures ClaimStep(w, c.(answer := Some(answer))).0.decision == Some(answer)
  {
    AnsweredExactly(w, c);
    AnsweredExactly(w, c.(answer := Some(answer)));
  }

  // ---- What is in the slot ----

  /** The running game, and only it, changes the card in the slot. */
  lemma PlayedCardIsTheSlot(w: World, slot: Option<Content>)
    ensures Play(w, slot).slot == (if w.running.Some? then slot else w.slot)
    ensures Play(w, slot).cards == w.cards && Play(w, slot).decision == w.decision && Play(w, slot).running == w.running
  {
  }

  /** A session that ends gives the container back, and leaves its slot empty exactly when it was,
      or its card was captured and wiped; a card that was not captured stays. */
  lemma WipedOnlyWhenCaptured(w: World, readable: bool, stores: bool, wipes: bool)
    requires Sane(w) && w.running.Some?
    ensures var w' := Finish(w, readable, stores, wipes);
            && w'.running.None? && w'.decision == w.decision
            && (w'.slot == w.slot || w'.slot.None?)
            && (w'.slot.None? <==> w.slot.None? || (readable && stores && wipes))
            && (readable && stores && w.slot.Some? ==> InHistory(w'.cards[w.running.value], w.slot.value))
            && forall id | id in w.cards && id != w.running.value :: w'.cards[id] == w.cards[id]
  {
    if w.slot.Some? {
      var history := w.cards[w.running.value];
      StoredOnFile(history, w.slot.value);
      if !InHistory(history, w.slot.value) {
        assert Stored(history, w.slot.value)[|history|].content == w.slot.value;
      }
    }
  }
}
