/** What the per-ROM index answers compared with the entries themselves, at any reachable time. */
module ActivityProofs {
  import opened Common
  import opened Activity

  // ---- Members parse back ----

  lemma {:induction false} DigitsOnly(text: string)
    ensures ParseNat(text).Some? ==> ':' !in text
  {
    if text != "" && ParseNat(text).Some? {
      var front, last := text[..|text| - 1], text[|text| - 1];
      assert text == front + [last];
      DigitsOnly(front);
    }
  }

  lemma {:induction false} LastColonMeans(text: string)
    ensures LastColon(text).None? <==> ':' !in text
    ensures LastColon(text).Some? ==>
              && LastColon(text).value < |text| && text[LastColon(text).value] == ':'
              && ':' !in text[LastColon(text).value + 1..]
  {
    if text != "" {
      var front, last := text[..|text| - 1], text[|text| - 1];
      assert text == front + [last];
      if last != ':' {
        LastColonMeans(front);
        if LastColon(front).Some? {
          var i := LastColon(front).value;
          assert text[i + 1..] == front[i + 1..] + [last];
        }
      }
    }
  }

  /** An index member leads back to its user and device exactly when the device has no colon;
      otherwise it leads nowhere. */
  lemma MemberParses(user: nat, device: string)
    ensures ParseMember(Member(user, device)) == if ':' in device then None else Some((user, device))
  {
    var m, left := Member(user, device), Decimal(user);
    DecimalParses(user);
    LastColonMeans(m);
    assert m[|left|] == ':' && m[|left| + 1..] == device && m[..|left|] == left;
    var i := LastColon(m).value;
    forall p | i < p < |m| ensures m[p] != ':' { assert m[p] == m[i + 1..][p - i - 1]; }
    if ':' in device {
      var k :| 0 <= k < |device| && device[k] == ':';
      assert m[|left| + 1 + k] == ':';
      DigitsOnly(m[..i]);
      assert m[..i][|left|] == ':';
    } else {
      assert forall p | 0 <= p < |left| :: m[p] == left[p];
      assert forall p | |left| < p < |m| :: m[p] == device[p - |left| - 1];
      assert i == |left|;
    }
  }

  // ---- The index covers the entries ----

  /** Every live entry whose device has no colon is a member of its ROM's index, which
      outlives it. */
  predicate Covered(s: State) {
    forall k | k in s.active && s.now < s.active[k].expires && ':' !in k.1 ::
      var t := s.active[k];
      && t.value.Key() == k && t.expires <= s.now + ACTIVITY_TTL
      && t.value.rom in s.index && t.expires <= s.index[t.value.rom].expires
      && Member(k.0, k.1) in s.index[t.value.rom].value
  }

  lemma KeepsOthers(s: State, rom: nat, members: set<string>)
    requires Covered(s)
    requires forall k | Live(s, k).Some? && Live(s, k).value.rom == rom && ':' !in k.1 :: Member(k.0, k.1) !in members
    ensures Covered(Unlist(s, rom, members))
  {
  }

  lemma DifferentMembers(user: nat, device: string, user': nat, device': string)
    requires ':' !in device && Member(user, device) == Member(user', device')
    ensures (user, device) == (user', device')
  {
    MemberParses(user, device);
    MemberParses(user', device');
  }

  lemma StepStaysCovered(s: State, ev: Event)
    requires Covered(s)
    ensures Covered(Step(s, ev))
  {
    match ev
    case Beat(e) =>
    case Tick(_) =>
    case Read(rom) =>
      forall k | Live(s, k).Some? && Live(s, k).value.rom == rom && ':' !in k.1
        ensures Member(k.0, k.1) !in Dead(s, Indexed(s, rom))
      {
        MemberParses(k.0, k.1);
      }
      KeepsOthers(s, rom, Dead(s, Indexed(s, rom)));
    case Stop(user, device) =>
      if Live(s, (user, device)).Some? {
        var rest := s.(active := s.active - {(user, device)});
        forall k | Live(rest, k).Some? && ':' !in k.1 ensures Member(k.0, k.1) != Member(user, device) {
          if Member(k.0, k.1) == Member(user, device) { DifferentMembers(k.0, k.1, user, device); }
        }
        assert Covered(rest);
        KeepsOthers(rest, Live(s, (user, device)).value.rom, {Member(user, device)});
      }
  }

  lemma {:induction false} RunStaysCovered(s: State, events: seq<Event>)
    requires Covered(s)
    ensures Covered(Run(s, events))
    decreases |events|
  {
    if events != [] {
      StepStaysCovered(s, events[0]);
      RunStaysCovered(Step(s, events[0]), events[1..]);
    }
  }

  // ---- Members are written by beats only ----

  /** Every live entry is stored under its own user and device. */
  predicate Keyed(s: State) { forall k | k in s.active :: s.active[k].value.Key() == k }

  lemma {:induction false} RunStaysKeyed(s: State, events: seq<Event>)
    requires Keyed(s)
    ensures Keyed(Run(s, events))
    decreases |events|
  {
    if events != [] { RunStaysKeyed(Step(s, events[0]), events[1..]); }
  }

  lemma {:induction false} ColonsLeadNowhere(s: State, member: string)
    requires Keyed(s) && Found(s, member).Some?
    ensures ':' !in Found(s, member).value.device
  {
    LastColonMeans(member);
  }

  /** At every reachable time, a live entry of a ROM is returned for it exactly when its
      device id has no colon. A streaming container's id is an address with a scheme, so its
      sessions are never among them. */
  lemma EntryReturnedExactly(events: seq<Event>, k: (nat, string))
    requires Live(Run(EMPTY, events), k).Some?
    ensures var s := Run(EMPTY, events);
            ReturnedFor(s, Live(s, k).value.rom, Live(s, k).value) <==> ':' !in k.1
  {
    var s := Run(EMPTY, events);
    RunStaysCovered(EMPTY, events);
    RunStaysKeyed(EMPTY, events);
    var e := Live(s, k).value;
    if ':' !in k.1 {
      MemberParses(k.0, k.1);
      assert Member(k.0, k.1) in Indexed(s, e.rom) && Found(s, Member(k.0, k.1)) == Some(e);
    } else if ReturnedFor(s, e.rom, e) {
      var m :| m in Indexed(s, e.rom) && Found(s, m) == Some(e);
      ColonsLeadNowhere(s, m);
    }
  }

  /** Everything returned is stored and unexpired. */
  lemma ReturnedIsLive(events: seq<Event>, rom: nat, e: Entry)
    requires ReturnedFor(Run(EMPTY, events), rom, e)
    ensures Live(Run(EMPTY, events), e.Key()) == Some(e)
  {
    var s := Run(EMPTY, events);
    RunStaysKeyed(EMPTY, events);
    var m :| m in Indexed(s, rom) && Found(s, m) == Some(e);
  }

  // ---- An entry that moved to another ROM ----

  /** A live entry is returned for any ROM exactly when its device has no colon and its member
      is in that ROM's index, whichever ROM it is playing. */
  lemma ReturnedExactly(events: seq<Event>, rom: nat, e: Entry)
    requires Live(Run(EMPTY, events), e.Key()) == Some(e)
    ensures var s := Run(EMPTY, events);
            ReturnedFor(s, rom, e) <==> ':' !in e.device && Member(e.user, e.device) in Indexed(s, rom)
  {
    RunStaysWellKept(EMPTY, events);
    ReturnedWhenListed(Run(EMPTY, events), rom, e);
  }

  lemma ReturnedWhenListed(s: State, rom: nat, e: Entry)
    requires WellKept(s) && Live(s, e.Key()) == Some(e)
    ensures ReturnedFor(s, rom, e) <==> ':' !in e.device && Member(e.user, e.device) in Indexed(s, rom)
  {
    MemberParses(e.user, e.device);
    if ReturnedFor(s, rom, e) {
      var m :| m in Indexed(s, rom) && Found(s, m) == Some(e);
      var k := MemberOf(s, rom, m);
      MemberParses(k.0, k.1);
    }
  }

  /** Entries are stored under their own key, and index members are of some device. */
  ghost predicate WellKept(s: State) {
    Keyed(s) && forall rom, m | rom in s.index && m in s.index[rom].value :: IsMember(m)
  }

  ghost predicate IsMember(m: string) { exists user, device :: m == Member(user, device) }

  lemma MemberOf(s: State, rom: nat, m: string) returns (k: (nat, string))
    requires WellKept(s) && m in Indexed(s, rom)
    ensures m == Member(k.0, k.1)
  {
    assert IsMember(m);
    var user, device :| m == Member(user, device);
    k := (user, device);
  }

  lemma StepStaysWellKept(s: State, ev: Event)
    requires WellKept(s)
    ensures WellKept(Step(s, ev))
  {
    if ev.Beat? { assert IsMember(Member(ev.entry.user, ev.entry.device)); }
    hide Member, IsMember, Dead;
  }

  lemma {:induction false} RunStaysWellKept(s: State, events: seq<Event>)
    requires WellKept(s)
    ensures WellKept(Run(s, events))
    decreases |events|
  {
    if events != [] {
      StepStaysWellKept(s, events[0]);
      RunStaysWellKept(Step(s, events[0]), events[1..]);
    }
  }

  /** Every entry returned for a ROM is playing that ROM. */
  ghost predicate OwnOnly(s: State) { forall rom, e | ReturnedFor(s, rom, e) :: e.rom == rom }

  /** The beat of a device that no other ROM's index still lists. */
  ghost predicate Settled(s: State, ev: Event) {
    ev.Beat? && ':' !in ev.entry.device ==>
      forall rom | rom != ev.entry.rom :: Member(ev.entry.user, ev.entry.device) !in Indexed(s, rom)
  }

  /** From a state where every ROM is given only its own entries, a step keeps that exactly
      when it is not the beat of a device another ROM's index still lists. */
  lemma StepKeepsOwnOnlyExactly(s: State, ev: Event)
    requires WellKept(s) && OwnOnly(s)
    ensures OwnOnly(Step(s, ev)) <==> Settled(s, ev)
  {
    if ev.Beat? {
      BeatKeepsOwnOnlyExactly(s, ev.entry);
    } else {
      ShrinkKeepsOwnOnly(s, ev);
    }
  }

  /** Without a beat, nothing is returned that was not returned before. */
  lemma ShrinkKeepsOwnOnly(s: State, ev: Event)
    requires OwnOnly(s) && !ev.Beat?
    ensures OwnOnly(Step(s, ev))
  {
    var t := Step(s, ev);
    forall rom, e | ReturnedFor(t, rom, e) ensures e.rom == rom {
      var m :| m in Indexed(t, rom) && Found(t, m) == Some(e);
      assert m in Indexed(s, rom) && Found(s, m) == Some(e);
      assert ReturnedFor(s, rom, e);
    }
  }

  lemma BeatKeepsOwnOnlyExactly(s: State, e: Entry)
    requires WellKept(s) && OwnOnly(s)
    ensures OwnOnly(SetActive(s, e)) <==> Settled(s, Beat(e))
  {
    var t, m := SetActive(s, e), Member(e.user, e.device);
    MemberParses(e.user, e.device);
    if ':' !in e.device && !Settled(s, Beat(e)) {
      var rom :| rom != e.rom && m in Indexed(s, rom);
      assert m in Indexed(t, rom) && Found(t, m) == Some(e);
      assert ReturnedFor(t, rom, e);
    }
    if Settled(s, Beat(e)) {
      forall rom, x | ReturnedFor(t, rom, x) ensures x.rom == rom {
        var n :| n in Indexed(t, rom) && Found(t, n) == Some(x);
        BeatReturns(s, e, rom, n, x);
      }
    }
  }

  lemma BeatReturns(s: State, e: Entry, rom: nat, n: string, x: Entry)
    requires WellKept(s) && OwnOnly(s) && Settled(s, Beat(e))
    requires n in Indexed(SetActive(s, e), rom) && Found(SetActive(s, e), n) == Some(x)
    ensures x.rom == rom
  {
    MemberParses(e.user, e.device);
    if n == Member(e.user, e.device) {
      assert x == e;
    } else {
      assert n in Indexed(s, rom);
      var k := MemberOf(s, rom, n);
      MemberParses(k.0, k.1);
      assert k != e.Key();
      assert Found(s, n) == Some(x);
      assert ReturnedFor(s, rom, x);
    }
  }

  ghost predicate AlwaysOwnOnly(s: State, events: seq<Event>)
    decreases |events|
  {
    OwnOnly(s) && (events != [] ==> AlwaysOwnOnly(Step(s, events[0]), events[1..]))
  }

  ghost predicate AlwaysSettled(s: State, events: seq<Event>)
    decreases |events|
  {
    events != [] ==> Settled(s, events[0]) && AlwaysSettled(Step(s, events[0]), events[1..])
  }

  lemma {:induction false} OwnOnlyFrom(s: State, events: seq<Event>)
    requires WellKept(s) && OwnOnly(s)
    ensures AlwaysOwnOnly(s, events) <==> AlwaysSettled(s, events)
    decreases |events|
  {
    if events != [] {
      StepKeepsOwnOnlyExactly(s, events[0]);
      StepStaysWellKept(s, events[0]);
      if OwnOnly(Step(s, events[0])) {
        OwnOnlyFrom(Step(s, events[0]), events[1..]);
      }
    }
    hide OwnOnly, Settled, WellKept, Step;
  }

  /** Over any run, every ROM is at every moment given only its own entries if and only if no
      device ever beats for a ROM while another ROM's index lists it. */
  lemma OnlyOwnEntriesExactly(events: seq<Event>)
    ensures AlwaysOwnOnly(EMPTY, events) <==> AlwaysSettled(EMPTY, events)
  {
    assert OwnOnly(EMPTY);
    OwnOnlyFrom(EMPTY, events);
  }

  /** A device that moves to another ROM stays listed under the one it left: for as long as its
      new entry lives without another beat, the old ROM's readers are given it too. */
  lemma MovedEntryStillListed(s: State, before: Entry, after: Entry, seconds: nat)
    requires before.Key() == after.Key() && before.rom != after.rom && ':' !in after.device
    requires seconds < ACTIVITY_TTL
    ensures var t := Step(Step(Step(s, Beat(before)), Beat(after)), Tick(seconds));
            ReturnedFor(t, before.rom, after) && ReturnedFor(t, after.rom, after)
  {
    var t := Step(Step(Step(s, Beat(before)), Beat(after)), Tick(seconds));
    MemberParses(after.user, after.device);
    var m := Member(after.user, after.device);
    assert m in Indexed(t, before.rom) && m in Indexed(t, after.rom) && Found(t, m) == Some(after);
  }

  // ---- How long the ROM it left goes on listing it ----

  /** The device's entry does not run out, and is not stopped, anywhere along the run. */
  predicate LiveThroughout(s: State, events: seq<Event>, k: (nat, string))
    decreases |events|
  {
    Live(s, k).Some? && (events != [] ==> LiveThroughout(Step(s, events[0]), events[1..], k))
  }

  /** Whoever plays the ROM beats before its index runs out, again and again; `until` is when
      it does next. */
  predicate Renewed(s: State, events: seq<Event>, rom: nat, until: int)
    decreases |events|
  {
    && s.now < until
    && (events != [] ==>
          Renewed(Step(s, events[0]), events[1..], rom,
                  if events[0].Beat? && events[0].entry.rom == rom then s.now + ROM_INDEX_TTL else until))
  }

  predicate PlaysElsewhere(events: seq<Event>, k: (nat, string), rom: nat) {
    forall ev | ev in events && ev.Beat? && ev.entry.Key() == k :: ev.entry.rom != rom
  }

  /** A member of a live entry leaves an index only by the index running out. */
  lemma MemberLeavesOnly(s: State, ev: Event, k: (nat, string), rom: nat)
    requires ':' !in k.1 && Live(s, k).Some? && Live(Step(s, ev), k).Some? && Member(k.0, k.1) in Indexed(s, rom)
    ensures var t := Step(s, ev);
            var until := if ev.Beat? && ev.entry.rom == rom then s.now + ROM_INDEX_TTL else s.index[rom].expires;
            && rom in t.index && t.index[rom].expires == until
            && (Member(k.0, k.1) in Indexed(t, rom) <==> t.now < until)
  {
    MemberParses(k.0, k.1);
    if ev.Stop? && Member(ev.user, ev.device) == Member(k.0, k.1) {
      DifferentMembers(k.0, k.1, ev.user, ev.device);
    }
  }

  /** Once out of an index, a device is back in it only by playing that ROM. */
  lemma MemberStaysOut(s: State, ev: Event, k: (nat, string), rom: nat)
    requires ':' !in k.1 && Member(k.0, k.1) !in Indexed(s, rom)
    requires ev.Beat? && ev.entry.Key() == k ==> ev.entry.rom != rom
    ensures Member(k.0, k.1) !in Indexed(Step(s, ev), rom)
  {
    if ev.Beat? && ev.entry.rom == rom && Member(ev.entry.user, ev.entry.device) == Member(k.0, k.1) {
      DifferentMembers(k.0, k.1, ev.entry.user, ev.entry.device);
    }
  }

  lemma {:induction false} StaysOut(s: State, events: seq<Event>, k: (nat, string), rom: nat)
    requires ':' !in k.1 && Member(k.0, k.1) !in Indexed(s, rom) && PlaysElsewhere(events, k, rom)
    ensures Member(k.0, k.1) !in Indexed(Run(s, events), rom)
    decreases |events|
  {
    if events != [] {
      assert events[0] in events && forall ev | ev in events[1..] :: ev in events;
      MemberStaysOut(s, events[0], k, rom);
      StaysOut(Step(s, events[0]), events[1..], k, rom);
    }
    hide Step, Indexed, Member;
  }

  lemma {:induction false} ListedExactly(s: State, events: seq<Event>, k: (nat, string), rom: nat)
    requires ':' !in k.1 && Member(k.0, k.1) in Indexed(s, rom)
    requires LiveThroughout(s, events, k) && PlaysElsewhere(events, k, rom)
    ensures Member(k.0, k.1) in Indexed(Run(s, events), rom) <==> Renewed(s, events, rom, s.index[rom].expires)
    decreases |events|
  {
    if events != [] {
      var t := Step(s, events[0]);
      assert events[0] in events && forall ev | ev in events[1..] :: ev in events;
      MemberLeavesOnly(s, events[0], k, rom);
      if Member(k.0, k.1) in Indexed(t, rom) {
        ListedExactly(t, events[1..], k, rom);
      } else {
        StaysOut(t, events[1..], k, rom);
      }
    }
    assert s.now < s.index[rom].expires;
    hide Step, Indexed, Member, Live;
  }

  /** Over any run in which a device stays live and plays other ROMs, one whose index lists it
      goes on being given its entry if and only if somebody renews that index each time before
      it runs out. */
  lemma MovedEntryListedExactly(past: seq<Event>, events: seq<Event>, k: (nat, string), rom: nat)
    requires ':' !in k.1 && Member(k.0, k.1) in Indexed(Run(EMPTY, past), rom)
    requires LiveThroughout(Run(EMPTY, past), events, k) && PlaysElsewhere(events, k, rom)
    ensures var s := Run(EMPTY, past);
            var t := Run(s, events);
            Live(t, k).Some? && (ReturnedFor(t, rom, Live(t, k).value) <==> Renewed(s, events, rom, s.index[rom].expires))
  {
    var s := Run(EMPTY, past);
    var t := Run(s, events);
    RunStaysWellKept(EMPTY, past);
    RunStaysWellKept(s, events);
    ListedExactly(s, events, k, rom);
    LiveAtTheEnd(s, events, k);
    assert WellKept(t) && Live(t, k).value.Key() == k;
    ReturnedWhenListed(t, rom, Live(t, k).value);
    hide Run, Step, ReturnedFor, Renewed, WellKept, Indexed;
  }

  lemma {:induction false} LiveAtTheEnd(s: State, events: seq<Event>, k: (nat, string))
    requires LiveThroughout(s, events, k)
    ensures Live(Run(s, events), k).Some?
    decreases |events|
  {
    if events != [] { LiveAtTheEnd(Step(s, events[0]), events[1..], k); }
  }

  /** An index never has more than its lifetime ahead of it. */
  predicate Timely(s: State) { forall rom | rom in s.index :: s.index[rom].expires <= s.now + ROM_INDEX_TTL }

  lemma {:induction false} RunStaysTimely(s: State, events: seq<Event>)
    requires Timely(s)
    ensures Timely(Run(s, events)) && s.now <= Run(s, events).now
    decreases |events|
  {
    if events != [] {
      assert Timely(Step(s, events[0]));
      RunStaysTimely(Step(s, events[0]), events[1..]);
    }
  }

  predicate NobodyPlays(events: seq<Event>, rom: nat) {
    forall ev | ev in events && ev.Beat? :: ev.entry.rom != rom
  }

  lemma {:induction false} NotRenewed(s: State, events: seq<Event>, rom: nat)
    requires NobodyPlays(events, rom)
    ensures var t := Run(s, events);
            rom in t.index ==> rom in s.index && t.index[rom].expires == s.index[rom].expires
    decreases |events|
  {
    if events != [] {
      assert events[0] in events && forall ev | ev in events[1..] :: ev in events;
      NotRenewed(Step(s, events[0]), events[1..], rom);
    }
  }

  /** After ROM_INDEX_TTL seconds in which nobody beats for a ROM, nobody is returned for it,
      whatever else happens. */
  lemma QuietRomIsGivenNobody(past: seq<Event>, events: seq<Event>, rom: nat, e: Entry)
    requires NobodyPlays(events, rom)
    requires Run(Run(EMPTY, past), events).now >= Run(EMPTY, past).now + ROM_INDEX_TTL
    ensures !ReturnedFor(Run(Run(EMPTY, past), events), rom, e)
  {
    RunStaysTimely(EMPTY, past);
    NotRenewed(Run(EMPTY, past), events, rom);
    assert Indexed(Run(Run(EMPTY, past), events), rom) == {};
  }

  // ---- A stopped device ----

  /** Stopping takes the device's entry, and its member in the index of the ROM it played, and
      leaves every other entry alone. */
  lemma StopTakesTheEntry(s: State, user: nat, device: string)
    ensures var t := Step(s, Stop(user, device));
            && Live(t, (user, device)).None?
            && (Live(s, (user, device)).Some? ==> Member(user, device) !in Indexed(t, Live(s, (user, device)).value.rom))
            && forall k | k != (user, device) :: Live(t, k) == Live(s, k)
  {
  }

  lemma {:induction false} StaysStopped(s: State, events: seq<Event>, k: (nat, string))
    requires Live(s, k).None? && forall ev | ev in events && ev.Beat? :: ev.entry.Key() != k
    ensures Live(Run(s, events), k).None?
    decreases |events|
  {
    if events != [] {
      assert events[0] in events && forall ev | ev in events[1..] :: ev in events;
      StaysStopped(Step(s, events[0]), events[1..], k);
    }
  }

  /** After a stop, and until the device beats again, it is live nowhere and returned for no ROM. */
  lemma StoppedIsNotReturned(past: seq<Event>, user: nat, device: string, events: seq<Event>, rom: nat, e: Entry)
    requires forall ev | ev in events && ev.Beat? :: ev.entry.Key() != (user, device)
    requires e.user == user && e.device == device
    ensures var t := Run(Step(Run(EMPTY, past), Stop(user, device)), events);
            Live(t, (user, device)).None? && !ReturnedFor(t, rom, e)
  {
    var s := Run(EMPTY, past);
    var stopped := Step(s, Stop(user, device));
    StopTakesTheEntry(s, user, device);
    StaysStopped(stopped, events, (user, device));
    RunStaysKeyed(EMPTY, past);
    RunStaysKeyed(stopped, events);
    FoundIsLive(Run(stopped, events), e);
  }

  lemma FoundIsLive(s: State, e: Entry)
    requires Keyed(s) && Live(s, e.Key()).None?
    ensures forall rom :: !ReturnedFor(s, rom, e)
  {
  }

  // ---- How long things last ----

  /** An entry lives for 90 seconds after its beat, and its member is listed for 120. */
  lemma BeatLasts(s: State, e: Entry, seconds: nat)
    ensures var t := Step(Step(s, Beat(e)), Tick(seconds));
            && (Live(t, e.Key()) == Some(e) <==> seconds < 90) && (Live(t, e.Key()).None? <==> seconds >= 90)
            && (Member(e.user, e.device) in Indexed(t, e.rom) <==> seconds < 120)
  {
    hide Member;
  }

  /** A beat changes no other entry and unlists nobody. */
  lemma BeatKeepsOthers(s: State, e: Entry)
    ensures forall k | k != e.Key() :: Live(Step(s, Beat(e)), k) == Live(s, k)
    ensures forall rom :: Indexed(s, rom) <= Indexed(Step(s, Beat(e)), rom)
  {
    hide Member;
  }

  /** Reading a ROM's index drops exactly the members that lead nowhere, leaves its lifetime, and
      changes neither the entries nor any other index. */
  lemma ReadMeans(s: State, rom: nat)
    ensures var t := Step(s, Read(rom));
            && t.active == s.active
            && (forall m :: m in Indexed(t, rom) <==> m in Indexed(s, rom) && Found(s, m).Some?)
            && (forall r | r != rom :: Indexed(t, r) == Indexed(s, r))
            && (rom in t.index <==> rom in s.index) && (rom in s.index ==> t.index[rom].expires == s.index[rom].expires)
  {
    hide Found;
  }
}
