/** Play-session ingest for one user: validate, deduplicate, insert, then advance each
    ROM's last played time. Instants are whole seconds. */
module PlaySessions {
  import opened Common

  datatype Entry = Entry(rom: Option<nat>, start: int, end: int)

  /** A batch with its device and the library resolved, and the clock's tolerance. */
  datatype Batch = Batch(entries: seq<Entry>, device: Option<string>, library: set<nat>, maxFuture: int)

  datatype Session = Session(device: Option<string>, rom: Option<nat>, start: int, end: int)

  datatype Status = Incomplete | Finished | Completed100 | Retired | NeverPlaying

  datatype RomUser = RomUser(lastPlayed: Option<int>, nowPlaying: bool, status: Option<Status>)

  const NEW_ROM_USER := RomUser(None, false, None)

  datatype Log = Log(sessions: seq<Session>, romUsers: map<nat, RomUser>)

  datatype Verdict = Created | Duplicate | Error

  datatype Result = Result(index: nat, verdict: Verdict)

  type Key = (Option<nat>, int)

  /** An unknown ROM, or the falsy id 0, is recorded as no ROM. */
  function Resolve(b: Batch, rom: Option<nat>): Option<nat> {
    if rom.Some? && rom.value != 0 && rom.value in b.library then rom else None
  }

  function KeyAt(b: Batch, i: nat): Key
    requires i < |b.entries|
  {
    (Resolve(b, b.entries[i].rom), b.entries[i].start)
  }

  predicate InTime(b: Batch, i: nat)
    requires i < |b.entries|
  {
    b.entries[i].end <= b.maxFuture
  }

  /** The keys this device already has a session for. */
  function Existing(sessions: seq<Session>, device: Option<string>): set<Key> {
    set i | 0 <= i < |sessions| && sessions[i].device == device :: (sessions[i].rom, sessions[i].start)
  }

  // ---- The three phases ----

  function ValidUpTo(b: Batch, n: nat): (ids: seq<nat>)
    requires n <= |b.entries|
    ensures |ids| <= n && forall k | 0 <= k < |ids| :: ids[k] < n && InTime(b, ids[k])
  {
    if n == 0 then [] else ValidUpTo(b, n - 1) + (if InTime(b, n - 1) then [n - 1] else [])
  }

  function ErrorsUpTo(b: Batch, n: nat): seq<Result>
    requires n <= |b.entries|
  {
    if n == 0 then [] else ErrorsUpTo(b, n - 1) + (if InTime(b, n - 1) then [] else [Result(n - 1, Error)])
  }

  predicate Indexes(b: Batch, ids: seq<nat>) { forall k | 0 <= k < |ids| :: ids[k] < |b.entries| }

  function KeysOf(b: Batch, ids: seq<nat>): set<Key>
    requires Indexes(b, ids)
  {
    if ids == [] then {} else KeysOf(b, ids[..|ids| - 1]) + {KeyAt(b, ids[|ids| - 1])}
  }

  /** The indexes to insert: one per key, and none whose key exists. */
  function Fresh(b: Batch, existing: set<Key>, ids: seq<nat>): (r: seq<nat>)
    requires Indexes(b, ids)
    ensures |r| <= |ids| && Indexes(b, r)
  {
    if ids == [] then []
    else
      var before, last := Fresh(b, existing, ids[..|ids| - 1]), ids[|ids| - 1];
      if KeyAt(b, last) in KeysOf(b, before) || KeyAt(b, last) in existing then before else before + [last]
  }

  function Repeats(b: Batch, existing: set<Key>, ids: seq<nat>): seq<Result>
    requires Indexes(b, ids)
  {
    if ids == [] then []
    else
      var before, last := Fresh(b, existing, ids[..|ids| - 1]), ids[|ids| - 1];
      Repeats(b, existing, ids[..|ids| - 1]) +
      (if KeyAt(b, last) in KeysOf(b, before) || KeyAt(b, last) in existing then [Result(last, Duplicate)] else [])
  }

  function ToInsert(b: Batch, sessions: seq<Session>): (r: seq<nat>)
    ensures Indexes(b, r) && |r| <= |b.entries|
  {
    Fresh(b, Existing(sessions, b.device), ValidUpTo(b, |b.entries|))
  }

  function SessionAt(b: Batch, i: nat): Session
    requires i < |b.entries|
  {
    Session(b.device, Resolve(b, b.entries[i].rom), b.entries[i].start, b.entries[i].end)
  }

  function Inserted(b: Batch, ids: seq<nat>): seq<Session>
    requires Indexes(b, ids)
  {
    seq(|ids|, k requires 0 <= k < |ids| => SessionAt(b, ids[k]))
  }

  function CreatedResults(ids: seq<nat>): seq<Result> { seq(|ids|, k requires 0 <= k < |ids| => Result(ids[k], Created)) }

  function Results(b: Batch, sessions: seq<Session>): seq<Result> {
    ErrorsUpTo(b, |b.entries|)
    + Repeats(b, Existing(sessions, b.device), ValidUpTo(b, |b.entries|))
    + CreatedResults(ToInsert(b, sessions))
  }

  // ---- Last played ----

  function Later(a: Option<int>, b: int): int { if a.Some? && a.value >= b then a.value else b }

  /** The newest end time among inserted sessions, ROM by ROM. */
  function Latest(sessions: seq<Session>): map<nat, int> {
    if sessions == [] then map[]
    else
      var before, last := Latest(sessions[..|sessions| - 1]), sessions[|sessions| - 1];
      if last.rom.None? then before
      else
        var rom := last.rom.value;
        before[rom := Later(if rom in before then Some(before[rom]) else None, last.end)]
  }

  /** Only a newer play advances a ROM; it reopens an empty or finished status. */
  function Played(u: RomUser, end: int): RomUser {
    if u.lastPlayed.Some? && end <= u.lastPlayed.value then u
    else RomUser(Some(end), true, if u.status.None? || u.status == Some(Finished) then Some(Incomplete) else u.status)
  }

  function UserAt(users: map<nat, RomUser>, rom: nat): RomUser { if rom in users then users[rom] else NEW_ROM_USER }

  function Advanced(users: map<nat, RomUser>, latest: map<nat, int>): map<nat, RomUser> {
    map rom | rom in users.Keys + latest.Keys ::
      if rom in latest then Played(UserAt(users, rom), latest[rom]) else UserAt(users, rom)
  }

  function Ingest(log: Log, b: Batch): Log {
    var inserted := Inserted(b, ToInsert(b, log.sessions));
    Log(log.sessions + inserted, Advanced(log.romUsers, Latest(inserted)))
  }

  /** One user's stored sessions and per-ROM state. */
  class PlayLog {
    var sessions: seq<Session>
    var romUsers: map<nat, RomUser>

    method IngestPlaySessions(b: Batch) returns (results: seq<Result>, created: nat, skipped: nat)
      modifies this
      ensures Log(sessions, romUsers) == Ingest(old(Log(sessions, romUsers)), b)
      ensures results == Results(b, old(sessions))
      ensures created == |sessions| - |old(sessions)| && created + skipped == |b.entries|
    {
      var valid;
      results, valid := Validate(b);
      var repeats, toInsert := Deduplicate(b, Existing(sessions, b.device), valid);
      var inserted := Inserted(b, toInsert);
      sessions := sessions + inserted;
      results := results + repeats + CreatedResults(toInsert);
      var updates := CollectUpdates(inserted);
      ApplyPlayToRomUser(updates);
      created, skipped := |toInsert|, |b.entries| - |toInsert|;
    }

    static method Validate(b: Batch) returns (results: seq<Result>, valid: seq<nat>)
      ensures results == ErrorsUpTo(b, |b.entries|) && valid == ValidUpTo(b, |b.entries|)
    {
      results, valid := [], [];
      for i := 0 to |b.entries|
        invariant results == ErrorsUpTo(b, i) && valid == ValidUpTo(b, i)
      {
        if b.entries[i].end > b.maxFuture {
          results := results + [Result(i, Error)];
          continue;
        }
        valid := valid + [i];
      }
    }

    static method Deduplicate(b: Batch, existing: set<Key>, valid: seq<nat>) returns (results: seq<Result>, toInsert: seq<nat>)
      requires Indexes(b, valid)
      ensures toInsert == Fresh(b, existing, valid) && results == Repeats(b, existing, valid)
    {
      results, toInsert := [], [];
      var seen: set<Key> := {};
      for k := 0 to |valid|
        invariant toInsert == Fresh(b, existing, valid[..k]) && results == Repeats(b, existing, valid[..k])
        invariant seen == KeysOf(b, toInsert)
      {
        var key := KeyAt(b, valid[k]);
        assert valid[..k + 1][..k] == valid[..k] && valid[..k + 1][k] == valid[k];
        if key in seen || key in existing {
          results := results + [Result(valid[k], Duplicate)];
          continue;
        }
        KeysSnoc(b, toInsert, valid[k]);
        seen := seen + {key};
        toInsert := toInsert + [valid[k]];
      }
      assert valid[..|valid|] == valid;
    }

    static method CollectUpdates(inserted: seq<Session>) returns (updates: map<nat, int>)
      ensures updates == Latest(inserted)
    {
      updates := map[];
      for k := 0 to |inserted|
        invariant updates == Latest(inserted[..k])
      {
        assert inserted[..k + 1][..k] == inserted[..k] && inserted[..k + 1][k] == inserted[k];
        var s := inserted[k];
        if s.rom.Some? {
          if s.rom.value !in updates || s.end > updates[s.rom.value] {
            updates := updates[s.rom.value := s.end];
          }
        }
      }
      assert inserted[..|inserted|] == inserted;
    }

    method ApplyPlayToRomUser(updates: map<nat, int>)
      modifies this`romUsers
      ensures romUsers == Advanced(old(romUsers), updates)
    {
      var todo := updates.Keys;
      ghost var done: map<nat, int> := map[];
      assert Advanced(romUsers, done) == romUsers;
      while todo != {}
        invariant todo <= updates.Keys && done.Keys == updates.Keys - todo
        invariant forall rom | rom in done :: done[rom] == updates[rom]
        invariant romUsers == Advanced(old(romUsers), done)
        decreases |todo|
      {
        var rom :| rom in todo;
        AdvancedOne(old(romUsers), done, rom, updates[rom]);
        todo, done := todo - {rom}, done[rom := updates[rom]];
        ApplyOne(rom, updates[rom]);
      }
      assert done == updates;
    }

    method ApplyOne(rom: nat, latest: int)
      modifies this`romUsers
      ensures romUsers == old(romUsers)[rom := Played(UserAt(old(romUsers), rom), latest)]
    {
      var u := if rom in romUsers then romUsers[rom] else NEW_ROM_USER;
      romUsers := romUsers[rom := u];
      if u.lastPlayed.Some? && latest <= u.lastPlayed.value {
        return;
      }
      u := u.(lastPlayed := Some(latest), nowPlaying := true);
      if u.status.None? || u.status == Some(Finished) {
        u := u.(status := Some(Incomplete));
      }
      romUsers := romUsers[rom := u];
    }
  }

  lemma AdvancedOne(users: map<nat, RomUser>, done: map<nat, int>, rom: nat, latest: int)
    requires rom !in done
    ensures Advanced(users, done[rom := latest]) ==
            Advanced(users, done)[rom := Played(UserAt(Advanced(users, done), rom), latest)]
  {
    hide Played;
  }

  lemma KeysSnoc(b: Batch, ids: seq<nat>, i: nat)
    requires Indexes(b, ids) && i < |b.entries|
    ensures KeysOf(b, ids + [i]) == KeysOf(b, ids) + {KeyAt(b, i)}
  {
    assert (ids + [i])[..|ids|] == ids && (ids + [i])[|ids|] == i;
  }
}
