/** Whole-card sync on one streaming container: probe the card it still holds, settle
    which card the session mounts, hydrate it, launch. */
module MemoryCards {
  import opened Common

  type Content = string

  /** A fresh card: pushing it leaves the slot empty. */
  const EMPTY_CARD: Content := ""

  datatype Decision = Adopt | Discard

  /** A version row, and whether its archive is still on disk. */
  datatype Version = Version(content: Content, onDisk: bool)

  /** The container's slot, the recorded decision, the cards with their histories oldest
      first, and the card the running claim has mounted. */
  datatype World = World(slot: Option<Content>, decision: Option<Decision>, cards: map<nat, seq<Version>>,
                         nextCard: nat, running: Option<nat>)

  /** A claim with its answer to the import prompt, and how its fallible steps turn out. */
  datatype Claim = Claim(mounted: Option<nat>, answer: Option<Decision>, readable: bool,
                         stores: bool, pushes: bool, launches: bool)

  datatype Outcome = Busy409 | Prompt428 | Failed502 | Launched(card: nat)

  function Fill(content: Content): Option<Content> { if content == EMPTY_CARD then None else Some(content) }

  predicate InHistory(history: seq<Version>, content: Content) {
    exists i :: 0 <= i < |history| && history[i].content == content
  }

  predicate IsLatest(history: seq<Version>, content: Content) {
    history != [] && history[|history| - 1].content == content
  }

  /** What hydration pushes: the newest version, or a blank when there is none to read. */
  function ToPush(history: seq<Version>): Content {
    if history != [] && history[|history| - 1].onDisk then history[|history| - 1].content else EMPTY_CARD
  }

  // ---- The steps of a claim ----

  datatype Probe = Settled | Undecided(content: Option<Content>) | Refuse(outcome: Outcome)

  /** Unreadable is not empty, and only "discard" overrides it; an empty slot cannot be
      adopted; a card found with no answer prompts. */
  function ProbeCard(w: World, c: Claim): Probe {
    if w.decision.Some? then Settled
    else if !c.readable then
      if c.answer == Some(Discard) then Undecided(None)
      else if c.answer.None? then Refuse(Prompt428) else Refuse(Failed502)
    else if w.slot.None? && c.answer == Some(Adopt) then Refuse(Failed502)
    else if w.slot.Some? && c.answer.None? then Refuse(Prompt428)
    else Undecided(if c.answer == Some(Discard) then None else w.slot)
  }

  /** Give up a claim, with the blank card it made. */
  function Abort(w: World, blank: Option<nat>): World {
    w.(running := None, cards := if blank.Some? then w.cards - {blank.value} else w.cards)
  }

  /** Mount the chosen card, or a blank one made now. */
  function Mount(w: World, c: Claim): World {
    match c.mounted
    case Some(id) => w.(running := Some(id))
    case None => w.(running := Some(w.nextCard), cards := w.cards[w.nextCard := []], nextCard := w.nextCard + 1)
  }

  function Blank(w: World, c: Claim): Option<nat> { if c.mounted.Some? then None else Some(w.nextCard) }

  /** Whether importing `content` leaves it the newest version of the card. */
  predicate Imports(history: seq<Version>, content: Content, stores: bool) {
    stores && (!InHistory(history, content) || IsLatest(history, content))
  }

  /** Identical content is stored once per card. */
  function Stored(history: seq<Version>, content: Content): seq<Version> {
    if InHistory(history, content) then history else history + [Version(content, true)]
  }

  /** The first recorded decision stands. */
  function Decide(w: World, decision: Decision): World {
    if w.decision.Some? then w else w.(decision := Some(decision))
  }

  predicate WellFormed(w: World, c: Claim) {
    && (c.mounted.Some? ==> c.mounted.value in w.cards)
    && (w.running.Some? ==> w.running.value in w.cards)
    && forall id | id in w.cards :: id < w.nextCard
  }

  /** Settle the card of a claim that was won: None when importing it failed. */
  function Settle(w: World, c: Claim, probe: Probe): Option<World>
    requires !probe.Refuse? && WellFormed(w, c)
  {
    var m := Mount(w, c);
    if probe.Settled? then Some(m)
    else if probe.content.None? then Some(Decide(m, Discard))
    else
      var id, history := m.running.value, m.cards[m.running.value];
      if !Imports(history, probe.content.value, c.stores) then None
      else Some(Decide(m.(cards := m.cards[id := Stored(history, probe.content.value)]), Adopt))
  }

  function ClaimStep(w: World, c: Claim): (World, Outcome)
    requires WellFormed(w, c)
  {
    if w.running.Some? then (w, Busy409)
    else
      var probe := ProbeCard(w, c);
      if probe.Refuse? then (w, probe.outcome)
      else match Settle(w, c, probe)
           case None => (Abort(Mount(w, c), Blank(w, c)), Failed502)
           case Some(settled) =>
             if !c.pushes then (Abort(settled, Blank(w, c)), Failed502)
             else
               var hydrated := settled.(slot := Fill(ToPush(settled.cards[settled.running.value])));
               if c.launches then (hydrated, Launched(hydrated.running.value))
               else (Abort(hydrated, Blank(w, c)), Failed502)
  }

  // ---- After the launch ----

  /** The running game rewrites its card. */
  function Play(w: World, slot: Option<Content>): World {
    if w.running.Some? then w.(slot := slot) else w
  }

  /** Capture the card before the container is given back, and wipe the slot only if that
      worked. */
  function Finish(w: World, readable: bool, stores: bool, wipes: bool): World
    requires w.running.Some? ==> w.running.value in w.cards
  {
    if w.running.None? then w
    else
      var id := w.running.value;
      var captured := readable && (w.slot.None? || stores);
      var cards := if captured && w.slot.Some? then w.cards[id := Stored(w.cards[id], w.slot.value)] else w.cards;
      w.(cards := cards, slot := if captured && wipes then None else w.slot, running := None)
  }

  /** The container, its decision row and the card library, changed step by step. */
  class Host {
    var slot: Option<Content>
    var decision: Option<Decision>
    var cards: map<nat, seq<Version>>
    var nextCard: nat
    var running: Option<nat>

    function Model(): World
      reads this
    {
      World(slot, decision, cards, nextCard, running)
    }

    method AbortClaim(blank: Option<nat>)
      modifies this`running, this`cards
      ensures Model() == Abort(old(Model()), blank)
    {
      running := None;
      if blank.Some? {
        cards := cards - {blank.value};
      }
    }

    /** Every refusal here has released the claim. */
    method ProbeContainerCard(c: Claim, token: nat) returns (probe: Probe)
      requires running == Some(token)
      modifies this`running, this`cards
      ensures probe == ProbeCard(old(Model()), c)
      ensures Model() == if probe.Refuse? then Abort(old(Model()), None) else old(Model())
    {
      if decision.Some? {
        return Settled;
      }
      if !c.readable {
        if c.answer == Some(Discard) {
          return Undecided(None);
        }
        AbortClaim(None);
        return Refuse(if c.answer.None? then Prompt428 else Failed502);
      }
      if slot.None? && c.answer == Some(Adopt) {
        AbortClaim(None);
        return Refuse(Failed502);
      }
      if slot.Some? && c.answer.None? {
        AbortClaim(None);
        return Refuse(Prompt428);
      }
      probe := Undecided(if c.answer == Some(Discard) then None else slot);
    }

    method SettleMemoryCard(c: Claim, probe: Probe) returns (ok: bool, blank: Option<nat>)
      requires !probe.Refuse? && WellFormed(Model().(running := None), c)
      modifies this
      ensures var before := old(Model()).(running := None);
              && blank == Blank(before, c)
              && (ok <==> Settle(before, c, probe).Some?)
              && Model() == if ok then Settle(before, c, probe).value else Abort(Mount(before, c), blank)
    {
      ok, blank := true, None;
      if c.mounted.Some? {
        running := c.mounted;
      } else {
        blank := Some(nextCard);
        running := blank;
        cards := cards[nextCard := []];
        nextCard := nextCard + 1;
      }
      if probe.Settled? {
        return;
      }
      if probe.content.Some? {
        var id := running.value;
        if !c.stores {
          AbortClaim(blank);
          return false, blank;
        }
        if InHistory(cards[id], probe.content.value) {
          if !IsLatest(cards[id], probe.content.value) {
            AbortClaim(blank);
            return false, blank;
          }
        } else {
          cards := cards[id := cards[id] + [Version(probe.content.value, true)]];
        }
      }
      if decision.None? {
        decision := Some(if probe.content.Some? then Adopt else Discard);
      }
    }

    method HydrateSaves(c: Claim, blank: Option<nat>) returns (ok: bool)
      requires running.Some? && running.value in cards
      modifies this
      ensures ok == c.pushes
      ensures Model() == if ok then old(Model()).(slot := Fill(ToPush(old(cards)[old(running).value])))
                         else Abort(old(Model()), blank)
    {
      var history := cards[running.value];
      var content := EMPTY_CARD;
      if history != [] && history[|history| - 1].onDisk {
        content := history[|history| - 1].content;
      }
      ok := c.pushes;
      if ok {
        slot := Fill(content);
      } else {
        AbortClaim(blank);
      }
    }

    method ClaimSession(c: Claim) returns (outcome: Outcome)
      requires WellFormed(Model(), c)
      modifies this
      ensures (Model(), outcome) == ClaimStep(old(Model()), c)
    {
      if running.Some? {
        return Busy409;
      }
      running := Some(nextCard);
      var probe := ProbeContainerCard(c, nextCard);
      if probe.Refuse? {
        return probe.outcome;
      }
      var ok, blank := SettleMemoryCard(c, probe);
      if !ok {
        return Failed502;
      }
      ok := HydrateSaves(c, blank);
      if !ok {
        return Failed502;
      }
      if c.launches {
        return Launched(running.value);
      }
      AbortClaim(blank);
      outcome := Failed502;
    }
  }
}
