/** Currently-playing entries with a time to live, and the per-ROM index that finds them. */
module Activity {
  import opened Common

  const ACTIVITY_TTL := 90
  const ROM_INDEX_TTL := 120

  datatype Entry = Entry(user: nat, device: string, rom: nat, startedAt: int)
  {
    function Key(): (nat, string) { (user, device) }
  }

  datatype Timed<T> = Timed(value: T, expires: int)

  datatype State = State(now: int, active: map<(nat, string), Timed<Entry>>, index: map<nat, Timed<set<string>>>)

  const EMPTY := State(0, map[], map[])

  // ---- Index members as text ----

  function Member(user: nat, device: string): string { Decimal(user) + ":" + device }

  /** Where the text splits when taken apart once from the right. */
  function LastColon(text: string): Option<nat> {
    if text == "" then None
    else if text[|text| - 1] == ':' then Some(|text| - 1)
    else LastColon(text[..|text| - 1])
  }

  function ParseMember(member: string): Option<(nat, string)> {
    match LastColon(member)
    case None => None
    case Some(i) =>
      if i >= |member| then None
      else match ParseNat(member[..i])
           case None => None
           case Some(user) => Some((user, member[i + 1..]))
  }

  // ---- The store ----

  function Live(s: State, k: (nat, string)): Option<Entry> {
    if k in s.active && s.now < s.active[k].expires then Some(s.active[k].value) else None
  }

  function Indexed(s: State, rom: nat): set<string> {
    if rom in s.index && s.now < s.index[rom].expires then s.index[rom].value else {}
  }

  function SetActive(s: State, e: Entry): State {
    s.(active := s.active[e.Key() := Timed(e, s.now + ACTIVITY_TTL)],
       index := s.index[e.rom := Timed(Indexed(s, e.rom) + {Member(e.user, e.device)}, s.now + ROM_INDEX_TTL)])
  }

  /** Drop members from an index without touching its expiry. */
  function Unlist(s: State, rom: nat, members: set<string>): State {
    if rom in s.index && s.now < s.index[rom].expires then
      s.(index := s.index[rom := Timed(s.index[rom].value - members, s.index[rom].expires)])
    else s
  }

  function ClearActive(s: State, user: nat, device: string): State {
    match Live(s, (user, device))
    case None => s
    case Some(e) => Unlist(s.(active := s.active - {(user, device)}), e.rom, {Member(user, device)})
  }

  /** The entry an index member leads to, if its text can be taken apart and the entry has
      not expired. */
  function Found(s: State, member: string): Option<Entry> {
    match ParseMember(member)
    case None => None
    case Some(k) => Live(s, k)
  }

  function Dead(s: State, members: set<string>): set<string> { set m | m in members && Found(s, m).None? }

  predicate LedTo(s: State, members: set<string>, e: Entry) {
    exists m :: m in members && Found(s, m) == Some(e)
  }

  function ReadRom(s: State, rom: nat): State { Unlist(s, rom, Dead(s, Indexed(s, rom))) }

  predicate ReturnedFor(s: State, rom: nat, e: Entry) { LedTo(s, Indexed(s, rom), e) }

  datatype Event = Beat(entry: Entry) | Stop(user: nat, device: string) | Read(rom: nat) | Tick(seconds: nat)

  function Step(s: State, ev: Event): State {
    match ev
    case Beat(e) => SetActive(s, e)
    case Stop(user, device) => ClearActive(s, user, device)
    case Read(rom) => ReadRom(s, rom)
    case Tick(seconds) => s.(now := s.now + seconds)
  }

  function Run(s: State, events: seq<Event>): State
    decreases |events|
  {
    if events == [] then s else Run(Step(s, events[0]), events[1..])
  }

  /** The handler over its two kinds of keys. */
  class ActivityHandler {
    var now: int
    var active: map<(nat, string), Timed<Entry>>
    var index: map<nat, Timed<set<string>>>

    function Model(): State
      reads this
    {
      State(now, active, index)
    }

    method Set(e: Entry)
      modifies this`active, this`index
      ensures Model() == SetActive(old(Model()), e)
    {
      var members := Indexed(Model(), e.rom);
      active := active[e.Key() := Timed(e, now + ACTIVITY_TTL)];
      index := index[e.rom := Timed(members + {Member(e.user, e.device)}, now + ROM_INDEX_TTL)];
    }

    method Clear(user: nat, device: string) returns (rom: Option<nat>)
      modifies this`active, this`index
      ensures Model() == ClearActive(old(Model()), user, device)
      ensures rom == match Live(old(Model()), (user, device)) case None => None case Some(e) => Some(e.rom)
    {
      var raw := Live(Model(), (user, device));
      if raw.None? {
        return None;
      }
      rom := Some(raw.value.rom);
      active := active - {(user, device)};
      Remove(raw.value.rom, {Member(user, device)});
    }

    method Remove(rom: nat, members: set<string>)
      modifies this`index
      ensures Model() == Unlist(old(Model()), rom, members)
    {
      if rom in index && now < index[rom].expires {
        index := index[rom := Timed(index[rom].value - members, index[rom].expires)];
      }
    }

    /** Entries for one ROM, in whatever order the index gives; dead members are dropped. */
    method GetActiveForRom(rom: nat) returns (entries: seq<Entry>)
      modifies this`index
      ensures Model() == ReadRom(old(Model()), rom)
      ensures forall e :: e in entries <==> ReturnedFor(old(Model()), rom, e)
    {
      UnlistNothing(Model(), rom);
      var stale;
      entries, stale := FollowMembers(Indexed(Model(), rom));
      if stale != {} {
        Remove(rom, stale);
      }
    }

    method FollowMembers(all: set<string>) returns (entries: seq<Entry>, stale: set<string>)
      ensures stale == Dead(Model(), all)
      ensures forall e :: e in entries <==> LedTo(Model(), all, e)
    {
      entries, stale := [], {};
      var done, todo := {}, all;
      while todo != {}
        invariant done + todo == all && stale == Dead(Model(), done)
        invariant forall e :: e in entries <==> LedTo(Model(), done, e)
        decreases |todo|
      {
        var m :| m in todo;
        OneMember(Model(), done, m);
        done, todo := done + {m}, todo - {m};
        var raw := Found(Model(), m);
        if raw.None? {
          stale := stale + {m};
        } else {
          entries := entries + [raw.value];
        }
      }
      assert done == all;
    }
  }

  lemma UnlistNothing(s: State, rom: nat)
    ensures Unlist(s, rom, {}) == s
  {
    if rom in s.index {
      var t := s.index[rom];
      assert t.value - {} == t.value;
      assert Timed(t.value - {}, t.expires) == t;
      assert s.index[rom := t] == s.index;
    }
  }

  lemma OneMember(s: State, members: set<string>, m: string)
    ensures Dead(s, members + {m}) == Dead(s, members) + (if Found(s, m).None? then {m} else {})
    ensures forall e :: LedTo(s, members + {m}, e) <==> LedTo(s, members, e) || Found(s, m) == Some(e)
  {
    hide Found;
    forall e | LedTo(s, members, e) || Found(s, m) == Some(e) ensures LedTo(s, members + {m}, e) {
      if LedTo(s, members, e) {
        var x :| x in members && Found(s, x) == Some(e);
        assert x in members + {m};
      } else {
        assert m in members + {m};
      }
    }
  }
}
