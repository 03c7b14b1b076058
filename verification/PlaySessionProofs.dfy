/** Ingest answers every entry once, stores no session twice, and moves last played to
    exactly the newest play. */
module PlaySessionProofs {
  import opened Common
  import opened PlaySessions

  // ---- One verdict per entry ----

  lemma {:induction false} KeyPresent(b: Batch, ids: seq<nat>, k: nat)
    requires Indexes(b, ids) && k < |ids|
    ensures KeyAt(b, ids[k]) in KeysOf(b, ids)
  {
    if k < |ids| - 1 {
      KeyPresent(b, ids[..|ids| - 1], k);
    }
  }

  lemma {:induction false} KeySource(b: Batch, ids: seq<nat>, key: Key) returns (k: nat)
    requires Indexes(b, ids) && key in KeysOf(b, ids)
    ensures k < |ids| && KeyAt(b, ids[k]) == key
  {
    k := |ids| - 1;
    if KeyAt(b, ids[k]) != key {
      k := KeySource(b, ids[..|ids| - 1], key);
    }
  }

  predicate Earlier(b: Batch, key: Key, n: nat)
    requires n <= |b.entries|
  {
    exists j :: 0 <= j < n && InTime(b, j) && KeyAt(b, j) == key
  }

  /** What becomes of an entry, read off the batch without running it. */
  function VerdictAt(b: Batch, existing: set<Key>, i: nat): Verdict
    requires i < |b.entries|
  {
    if !InTime(b, i) then Error
    else if KeyAt(b, i) in existing || Earlier(b, KeyAt(b, i), i) then Duplicate
    else Created
  }

  function FreshUpTo(b: Batch, existing: set<Key>, n: nat): (r: seq<nat>)
    requires n <= |b.entries|
    ensures Indexes(b, r)
  {
    Fresh(b, existing, ValidUpTo(b, n))
  }

  function RepeatsUpTo(b: Batch, existing: set<Key>, n: nat): seq<Result>
    requires n <= |b.entries|
  {
    Repeats(b, existing, ValidUpTo(b, n))
  }

  /** The keys a prefix leaves on record: its own and those that already existed. */
  predicate OnRecord(b: Batch, existing: set<Key>, n: nat, key: Key)
    requires n <= |b.entries|
  {
    key in KeysOf(b, FreshUpTo(b, existing, n)) || key in existing
  }

  /** The result of one entry, in the list of its verdict. */
  function Only(b: Batch, existing: set<Key>, i: nat, v: Verdict): seq<Result>
    requires i < |b.entries|
  {
    if VerdictAt(b, existing, i) == v then [Result(i, v)] else []
  }

  lemma EarlierGrows(b: Batch, n: nat, key: Key)
    requires 0 < n <= |b.entries|
    ensures Earlier(b, key, n) <==> Earlier(b, key, n - 1) || (InTime(b, n - 1) && KeyAt(b, n - 1) == key)
  {
  }

  lemma RecordGrows(b: Batch, existing: set<Key>, n: nat, key: Key)
    requires 0 < n <= |b.entries|
    requires OnRecord(b, existing, n - 1, KeyAt(b, n - 1)) <==> Earlier(b, KeyAt(b, n - 1), n - 1) || KeyAt(b, n - 1) in existing
    ensures OnRecord(b, existing, n, key) <==>
            OnRecord(b, existing, n - 1, key) || (InTime(b, n - 1) && KeyAt(b, n - 1) == key)
  {
    Grow(b, existing, n);
    KeysSnoc(b, FreshUpTo(b, existing, n - 1), n - 1);
    hide Earlier, FreshUpTo, KeysOf, KeyAt, InTime;
  }

  /** The loop's test against the keys seen so far is the declarative one. */
  lemma {:induction false} SeenMeans(b: Batch, existing: set<Key>, n: nat, key: Key)
    requires n <= |b.entries|
    ensures OnRecord(b, existing, n, key) <==> Earlier(b, key, n) || key in existing
  {
    if n > 0 {
      hide OnRecord, Earlier, KeyAt, InTime;
      SeenMeans(b, existing, n - 1, key);
      SeenMeans(b, existing, n - 1, KeyAt(b, n - 1));
      EarlierGrows(b, n, key);
      RecordGrows(b, existing, n, key);
    }
  }

  lemma ErrorsGrow(b: Batch, existing: set<Key>, n: nat)
    requires 0 < n <= |b.entries|
    ensures ErrorsUpTo(b, n) == ErrorsUpTo(b, n - 1) + Only(b, existing, n - 1, Error)
  {
    hide KeysOf, Earlier, KeyAt;
  }

  /** One more entry is a repeat, or fresh, or too late for either. */
  lemma Grow(b: Batch, existing: set<Key>, n: nat)
    requires 0 < n <= |b.entries|
    requires OnRecord(b, existing, n - 1, KeyAt(b, n - 1)) <==> Earlier(b, KeyAt(b, n - 1), n - 1) || KeyAt(b, n - 1) in existing
    ensures RepeatsUpTo(b, existing, n) == RepeatsUpTo(b, existing, n - 1) + Only(b, existing, n - 1, Duplicate)
    ensures FreshUpTo(b, existing, n) ==
            if VerdictAt(b, existing, n - 1) == Created then FreshUpTo(b, existing, n - 1) + [n - 1] else FreshUpTo(b, existing, n - 1)
  {
    hide KeysOf, Earlier, KeyAt;
    var ids := ValidUpTo(b, n - 1);
    if InTime(b, n - 1) {
      FreshSnoc(b, existing, ids, n - 1);
      assert ValidUpTo(b, n) == ids + [n - 1];
    } else {
      assert ValidUpTo(b, n) == ids;
    }
    hide ValidUpTo, Fresh, Repeats, InTime, Indexes;
  }

  lemma FreshSnoc(b: Batch, existing: set<Key>, ids: seq<nat>, i: nat)
    requires Indexes(b, ids) && i < |b.entries|
    ensures Indexes(b, ids + [i])
    ensures var before := Fresh(b, existing, ids);
            var seen := KeyAt(b, i) in KeysOf(b, before) || KeyAt(b, i) in existing;
            && Fresh(b, existing, ids + [i]) == (if seen then before else before + [i])
            && Repeats(b, existing, ids + [i]) == Repeats(b, existing, ids) + (if seen then [Result(i, Duplicate)] else [])
  {
    assert (ids + [i])[..|ids|] == ids && (ids + [i])[|ids|] == i;
    hide KeysOf;
  }

  /** A list of results that names, in increasing order, exactly the entries given `v`. */
  predicate Lists(b: Batch, existing: set<Key>, n: nat, rs: seq<Result>, v: Verdict)
    requires n <= |b.entries|
  {
    && (forall k | 0 <= k < |rs| :: rs[k].verdict == v && rs[k].index < n && VerdictAt(b, existing, rs[k].index) == v)
    && (forall k, l | 0 <= k < l < |rs| :: rs[k].index < rs[l].index)
    && (forall i: nat | i < n && VerdictAt(b, existing, i) == v :: Result(i, v) in rs)
  }

  lemma ListsGrow(b: Batch, existing: set<Key>, n: nat, rs: seq<Result>, v: Verdict)
    requires 0 < n <= |b.entries| && Lists(b, existing, n - 1, rs, v)
    ensures Lists(b, existing, n, rs + Only(b, existing, n - 1, v), v)
  {
    hide VerdictAt;
  }

  lemma CreatedSnoc(b: Batch, existing: set<Key>, ids: seq<nat>, i: nat)
    requires i < |b.entries|
    ensures CreatedResults(if VerdictAt(b, existing, i) == Created then ids + [i] else ids) ==
            CreatedResults(ids) + Only(b, existing, i, Created)
  {
    hide VerdictAt;
  }

  predicate AllLists(b: Batch, existing: set<Key>, n: nat)
    requires n <= |b.entries|
  {
    && Lists(b, existing, n, ErrorsUpTo(b, n), Error)
    && Lists(b, existing, n, RepeatsUpTo(b, existing, n), Duplicate)
    && Lists(b, existing, n, CreatedResults(FreshUpTo(b, existing, n)), Created)
  }

  lemma AllListsGrow(b: Batch, existing: set<Key>, n: nat)
    requires 0 < n <= |b.entries| && AllLists(b, existing, n - 1)
    ensures AllLists(b, existing, n)
  {
    hide Lists, VerdictAt, FreshUpTo, RepeatsUpTo, ErrorsUpTo, CreatedResults, OnRecord, Earlier, KeyAt, Only;
    SeenMeans(b, existing, n - 1, KeyAt(b, n - 1));
    ErrorsGrow(b, existing, n);
    Grow(b, existing, n);
    ListsGrow(b, existing, n, ErrorsUpTo(b, n - 1), Error);
    ListsGrow(b, existing, n, RepeatsUpTo(b, existing, n - 1), Duplicate);
    ListsGrow(b, existing, n, CreatedResults(FreshUpTo(b, existing, n - 1)), Created);
    CreatedSnoc(b, existing, FreshUpTo(b, existing, n - 1), n - 1);
  }

  lemma {:induction false} AllListed(b: Batch, existing: set<Key>, n: nat)
    requires n <= |b.entries|
    ensures AllLists(b, existing, n)
  {
    if n == 0 {
      NothingListed(b, existing);
    } else {
      AllListed(b, existing, n - 1);
      AllListsGrow(b, existing, n);
    }
    hide AllLists;
  }

  lemma NothingListed(b: Batch, existing: set<Key>)
    ensures ErrorsUpTo(b, 0) == RepeatsUpTo(b, existing, 0) == CreatedResults(FreshUpTo(b, existing, 0)) == []
    ensures AllLists(b, existing, 0)
  {
  }

  lemma {:induction false} AllCounted(b: Batch, existing: set<Key>, n: nat)
    requires n <= |b.entries|
    ensures |ErrorsUpTo(b, n)| + |RepeatsUpTo(b, existing, n)| + |FreshUpTo(b, existing, n)| == n
  {
    if n > 0 {
      hide VerdictAt, FreshUpTo, RepeatsUpTo, ErrorsUpTo, OnRecord, Earlier, KeyAt;
      AllCounted(b, existing, n - 1);
      SeenMeans(b, existing, n - 1, KeyAt(b, n - 1));
      ErrorsGrow(b, existing, n);
      Grow(b, existing, n);
      OneOfThree(b, existing, n - 1);
      hide Only;
    }
  }

  lemma OneOfThree(b: Batch, existing: set<Key>, i: nat)
    requires i < |b.entries|
    ensures |Only(b, existing, i, Error)| + |Only(b, existing, i, Duplicate)|
            + (if VerdictAt(b, existing, i) == Created then 1 else 0) == 1
  {
    hide VerdictAt;
    var v := VerdictAt(b, existing, i);
    assert v.Error? || v.Duplicate? || v.Created?;
  }

  /** Every index gets exactly one result, with its declarative verdict. */
  lemma ExactlyOneResult(b: Batch, sessions: seq<Session>, i: nat)
    requires i < |b.entries|
    ensures var rs, v := Results(b, sessions), VerdictAt(b, Existing(sessions, b.device), i);
            && |rs| == |b.entries|
            && Result(i, v) in rs
            && (v == Error <==> b.entries[i].end > b.maxFuture)
            && forall k, l | 0 <= k < |rs| && 0 <= l < |rs| && rs[k].index == i && rs[l].index == i :: k == l && rs[k].verdict == v
  {
    assert VerdictAt(b, Existing(sessions, b.device), i) == Error <==> b.entries[i].end > b.maxFuture;
    var existing := Existing(sessions, b.device);
    var n := |b.entries|;
    AllListed(b, existing, n);
    AllCounted(b, existing, n);
    var e, r, c := ErrorsUpTo(b, n), RepeatsUpTo(b, existing, n), CreatedResults(FreshUpTo(b, existing, n));
    hide VerdictAt, ErrorsUpTo, RepeatsUpTo, CreatedResults, FreshUpTo;
    OneAmong(b, existing, e, r, c, i);
  }

  lemma OneAmong(b: Batch, existing: set<Key>, e: seq<Result>, r: seq<Result>, c: seq<Result>, i: nat)
    requires i < |b.entries|
    requires Lists(b, existing, |b.entries|, e, Error) && Lists(b, existing, |b.entries|, r, Duplicate)
    requires Lists(b, existing, |b.entries|, c, Created)
    ensures var rs, v := e + r + c, VerdictAt(b, existing, i);
            && Result(i, v) in rs
            && forall k, l | 0 <= k < |rs| && 0 <= l < |rs| && rs[k].index == i && rs[l].index == i :: k == l && rs[k].verdict == v
  {
    hide VerdictAt;
    var v := VerdictAt(b, existing, i);
    assert v.Error? || v.Duplicate? || v.Created?;
  }

  // ---- No session twice ----

  predicate SameSession(a: Session, b: Session) { a.device == b.device && a.rom == b.rom && a.start == b.start }

  predicate Distinct(sessions: seq<Session>) {
    forall i, j {:trigger SameSession(sessions[i], sessions[j])} | 0 <= i < j < |sessions| :: !SameSession(sessions[i], sessions[j])
  }

  predicate NewKeys(b: Batch, existing: set<Key>, r: seq<nat>)
    requires Indexes(b, r)
  {
    && (forall k | 0 <= k < |r| :: KeyAt(b, r[k]) !in existing)
    && (forall k, l | 0 <= k < l < |r| :: KeyAt(b, r[k]) != KeyAt(b, r[l]))
  }

  lemma NewKeysSnoc(b: Batch, existing: set<Key>, r: seq<nat>, last: nat)
    requires Indexes(b, r) && NewKeys(b, existing, r) && last < |b.entries|
    requires KeyAt(b, last) !in KeysOf(b, r) && KeyAt(b, last) !in existing
    ensures Indexes(b, r + [last]) && NewKeys(b, existing, r + [last])
  {
    forall k | 0 <= k < |r| ensures KeyAt(b, r[k]) in KeysOf(b, r) {
      KeyPresent(b, r, k);
    }
    hide KeysOf, KeyAt;
  }

  lemma {:induction false} FreshKeysDiffer(b: Batch, existing: set<Key>, ids: seq<nat>)
    requires Indexes(b, ids)
    ensures NewKeys(b, existing, Fresh(b, existing, ids))
  {
    if ids != [] {
      var before, last := Fresh(b, existing, ids[..|ids| - 1]), ids[|ids| - 1];
      FreshKeysDiffer(b, existing, ids[..|ids| - 1]);
      if KeyAt(b, last) !in KeysOf(b, before) && KeyAt(b, last) !in existing {
        NewKeysSnoc(b, existing, before, last);
      }
    }
  }

  lemma DistinctConcat(stored: seq<Session>, added: seq<Session>)
    requires Distinct(stored) && Distinct(added)
    requires forall s, a | s in stored && a in added :: !SameSession(s, a)
    ensures Distinct(stored + added)
  {
    var all := stored + added;
    hide SameSession;
    forall i, j | 0 <= i < j < |all| ensures !SameSession(all[i], all[j]) {
      if j < |stored| {
        assert !SameSession(stored[i], stored[j]);
      } else if i < |stored| {
        assert stored[i] in stored && added[j - |stored|] in added;
      } else {
        assert !SameSession(added[i - |stored|], added[j - |stored|]);
      }
    }
  }

  lemma InsertedDistinct(b: Batch, existing: set<Key>, ids: seq<nat>)
    requires Indexes(b, ids) && NewKeys(b, existing, ids)
    ensures Distinct(Inserted(b, ids))
    ensures forall a | a in Inserted(b, ids) :: a.device == b.device && (a.rom, a.start) !in existing
  {
    var added := Inserted(b, ids);
    assert forall k | 0 <= k < |ids| :: (added[k].rom, added[k].start) == KeyAt(b, ids[k]) && added[k].device == b.device;
    hide KeyAt;
    forall i, j | 0 <= i < j < |added| ensures !SameSession(added[i], added[j]) {
      assert KeyAt(b, ids[i]) != KeyAt(b, ids[j]);
    }
    forall a | a in added ensures a.device == b.device && (a.rom, a.start) !in existing {
      var k :| 0 <= k < |added| && added[k] == a;
      assert KeyAt(b, ids[k]) !in existing;
    }
  }

  /** No two stored sessions of a device share ROM and start: each ingest keeps it so. */
  lemma SessionsStayDistinct(log: Log, b: Batch)
    requires Distinct(log.sessions)
    ensures Distinct(Ingest(log, b).sessions)
  {
    var existing, ids := Existing(log.sessions, b.device), ToInsert(b, log.sessions);
    FreshKeysDiffer(b, existing, ValidUpTo(b, |b.entries|));
    InsertedDistinct(b, existing, ids);
    var added := Inserted(b, ids);
    forall s, a | s in log.sessions && a in added ensures !SameSession(s, a) {
      var i :| 0 <= i < |log.sessions| && log.sessions[i] == s;
      assert s.device == b.device ==> (s.rom, s.start) in existing;
    }
    hide Distinct, ToInsert, Inserted, SameSession;
    DistinctConcat(log.sessions, added);
  }

  lemma {:induction false} NothingFresh(b: Batch, existing: set<Key>, ids: seq<nat>)
    requires Indexes(b, ids) && forall k | 0 <= k < |ids| :: KeyAt(b, ids[k]) in existing
    ensures Fresh(b, existing, ids) == []
  {
    if ids != [] { NothingFresh(b, existing, ids[..|ids| - 1]); }
  }

  predicate Includes(sessions: seq<Session>, part: seq<Session>) { forall s | s in part :: s in sessions }

  /** After an ingest, every in-time entry's key is on record for its device. */
  lemma KeysOnRecord(log: Log, b: Batch, later: seq<Session>, i: nat)
    requires i < |b.entries| && InTime(b, i) && Includes(later, Ingest(log, b).sessions)
    ensures KeyAt(b, i) in Existing(later, b.device)
  {
    var existing, n := Existing(log.sessions, b.device), |b.entries|;
    SeenMeans(b, existing, n, KeyAt(b, i));
    var ids, after := FreshUpTo(b, existing, n), Ingest(log, b).sessions;
    assert ids == ToInsert(b, log.sessions);
    assert Earlier(b, KeyAt(b, i), n);
    var s: Session;
    if KeyAt(b, i) in existing {
      var k :| 0 <= k < |log.sessions| && log.sessions[k].device == b.device && (log.sessions[k].rom, log.sessions[k].start) == KeyAt(b, i);
      s := after[k];
    } else {
      var k := KeySource(b, ids, KeyAt(b, i));
      s := after[|log.sessions| + k];
    }
    assert s in later;
    var m :| 0 <= m < |later| && later[m] == s;
  }

  /** Replaying a batch under its own clock changes nothing, on any log that still has its
      sessions: none is created again and no ROM moves. */
  lemma ReplayIsANoOp(log: Log, b: Batch, later: Log)
    requires Includes(later.sessions, Ingest(log, b).sessions)
    ensures Ingest(later, b) == later
  {
    var ids := ValidUpTo(b, |b.entries|);
    forall k | 0 <= k < |ids| ensures KeyAt(b, ids[k]) in Existing(later.sessions, b.device) {
      KeysOnRecord(log, b, later.sessions, ids[k]);
    }
    NothingFresh(b, Existing(later.sessions, b.device), ids);
    assert Inserted(b, []) == [];
    assert Advanced(later.romUsers, map[]) == later.romUsers;
  }

  lemma ReplayCreatesNothingAgain(log: Log, b: Batch, later: Log, maxFuture: int, i: nat)
    requires Includes(later.sessions, Ingest(log, b).sessions) && i < |b.entries| && InTime(b, i)
    ensures !VerdictAt(b.(maxFuture := maxFuture), Existing(later.sessions, b.device), i).Created?
  {
    KeysOnRecord(log, b, later.sessions, i);
    assert KeyAt(b.(maxFuture := maxFuture), i) == KeyAt(b, i);
  }

  // ---- Last played ----

  function EndsFor(sessions: seq<Session>, rom: nat): set<int> {
    set i | 0 <= i < |sessions| && sessions[i].rom == Some(rom) :: sessions[i].end
  }

  /** `v` is the largest of the starting value and some ends. */
  predicate IsMax(v: Option<int>, start: Option<int>, ends: set<int>) {
    if v.None? then start.None? && ends == {}
    else
      && (forall e | e in ends :: e <= v.value)
      && (start.Some? ==> start.value <= v.value)
      && (v == start || v.value in ends)
  }

  lemma EndsSnoc(sessions: seq<Session>, s: Session, rom: nat)
    ensures EndsFor(sessions + [s], rom) == EndsFor(sessions, rom) + (if s.rom == Some(rom) then {s.end} else {})
  {
    var all := sessions + [s];
    assert forall i | 0 <= i < |sessions| :: all[i] == sessions[i];
    forall e | e in EndsFor(sessions, rom) ensures e in EndsFor(all, rom) {
      var i :| 0 <= i < |sessions| && sessions[i].rom == Some(rom) && sessions[i].end == e;
      assert all[i].end == e;
    }
    if s.rom == Some(rom) { assert all[|sessions|].end in EndsFor(all, rom); }
  }

  lemma {:induction false} LatestIsMax(sessions: seq<Session>, rom: nat)
    ensures var latest := Latest(sessions);
            IsMax(if rom in latest then Some(latest[rom]) else None, None, EndsFor(sessions, rom))
  {
    if sessions != [] {
      var front, last := sessions[..|sessions| - 1], sessions[|sessions| - 1];
      LatestIsMax(front, rom);
      EndsSnoc(front, last, rom);
      assert front + [last] == sessions;
    }
  }

  function LastPlayed(log: Log, rom: nat): Option<int> { UserAt(log.romUsers, rom).lastPlayed }

  /** A ROM's last played is exactly the newest of its previous value and the sessions just
      created for it; a deliberate status is untouched, and no status moves without it. */
  lemma LastPlayedIsNewest(log: Log, b: Batch, rom: nat)
    ensures var created := Inserted(b, ToInsert(b, log.sessions));
            IsMax(LastPlayed(Ingest(log, b), rom), LastPlayed(log, rom), EndsFor(created, rom))
    ensures var before, after := UserAt(log.romUsers, rom), UserAt(Ingest(log, b).romUsers, rom);
            && (before.status.Some? && before.status.value !in {Finished, Incomplete} ==> after.status == before.status)
            && (after.lastPlayed == before.lastPlayed ==> after == before)
  {
    LatestIsMax(Inserted(b, ToInsert(b, log.sessions)), rom);
  }

  function Run(log: Log, batches: seq<Batch>): Log
    decreases |batches|
  {
    if batches == [] then log else Run(Ingest(log, batches[0]), batches[1..])
  }

  /** Over any sequence of ingests, last played is the newest of where it started and every
      session created for the ROM, so it never moves back. */
  lemma {:induction false} LastPlayedOverRuns(log: Log, batches: seq<Batch>, rom: nat) returns (created: seq<Session>)
    ensures Run(log, batches).sessions == log.sessions + created
    ensures IsMax(LastPlayed(Run(log, batches), rom), LastPlayed(log, rom), EndsFor(created, rom))
    decreases |batches|
  {
    if batches == [] {
      created := [];
      NothingCreated(log, rom);
    } else {
      hide Ingest, Inserted, ToInsert, EndsFor, IsMax, LastPlayed;
      var b := batches[0];
      var next := Ingest(log, b);
      var first := Inserted(b, ToInsert(b, log.sessions));
      LastPlayedIsNewest(log, b, rom);
      IngestAppends(log, b);
      var rest := LastPlayedOverRuns(next, batches[1..], rom);
      assert Run(log, batches) == Run(next, batches[1..]);
      hide Run;
      created := first + rest;
      InOneGo(log.sessions, first, rest);
      EndsConcat(first, rest, rom);
      MaxOfMax(LastPlayed(Run(log, batches), rom), LastPlayed(next, rom), LastPlayed(log, rom), EndsFor(first, rom), EndsFor(rest, rom));
    }
  }

  lemma InOneGo<T>(before: seq<T>, first: seq<T>, rest: seq<T>)
    ensures before + first + rest == before + (first + rest)
  {
  }

  lemma NothingCreated(log: Log, rom: nat)
    ensures Run(log, []).sessions == log.sessions + []
    ensures IsMax(LastPlayed(Run(log, []), rom), LastPlayed(log, rom), EndsFor([], rom))
  {
    assert EndsFor([], rom) == {};
  }

  lemma IngestAppends(log: Log, b: Batch)
    ensures Ingest(log, b).sessions == log.sessions + Inserted(b, ToInsert(b, log.sessions))
  {
    hide Inserted, ToInsert, Advanced, Latest;
  }

  lemma MaxOfMax(v: Option<int>, mid: Option<int>, start: Option<int>, first: set<int>, rest: set<int>)
    requires IsMax(mid, start, first) && IsMax(v, mid, rest)
    ensures IsMax(v, start, first + rest)
  {
  }

  lemma EndsConcat(a: seq<Session>, b: seq<Session>, rom: nat)
    ensures EndsFor(a + b, rom) == EndsFor(a, rom) + EndsFor(b, rom)
  {
    var all := a + b;
    forall e | e in EndsFor(a, rom) + EndsFor(b, rom) ensures e in EndsFor(all, rom) {
      if i :| 0 <= i < |a| && a[i].rom == Some(rom) && a[i].end == e {
        assert all[i].end == e;
      } else {
        var j :| 0 <= j < |b| && b[j].rom == Some(rom) && b[j].end == e;
        assert all[|a| + j].end == e;
      }
    }
  }

  // ---- The order of a batch ----

  /** Entries that would be stored under one key agree on when they ended. */
  predicate Consistent(b: Batch) {
    forall i, j | 0 <= i < |b.entries| && 0 <= j < |b.entries| && InTime(b, i) && InTime(b, j) && KeyAt(b, i) == KeyAt(b, j) ::
      b.entries[i].end == b.entries[j].end
  }

  /** The entry's end time is among those created for the ROM. */
  predicate Contributes(b: Batch, existing: set<Key>, rom: nat, i: nat)
    requires i < |b.entries|
  {
    InTime(b, i) && KeyAt(b, i) !in existing && Resolve(b, b.entries[i].rom) == Some(rom)
  }

  lemma CreatedEnds(log: Log, b: Batch, rom: nat, end: int)
    requires Consistent(b)
    ensures end in EndsFor(Inserted(b, ToInsert(b, log.sessions)), rom) <==>
            exists i :: 0 <= i < |b.entries| && Contributes(b, Existing(log.sessions, b.device), rom, i) && b.entries[i].end == end
  {
    var existing, n := Existing(log.sessions, b.device), |b.entries|;
    var ids := FreshUpTo(b, existing, n);
    var created := Inserted(b, ids);
    AllListed(b, existing, n);
    if i :| 0 <= i < n && Contributes(b, existing, rom, i) && b.entries[i].end == end {
      SeenMeans(b, existing, n, KeyAt(b, i));
      assert Earlier(b, KeyAt(b, i), n);
      var k := KeySource(b, ids, KeyAt(b, i));
      assert CreatedResults(ids)[k].index == ids[k] && InTime(b, ids[k]);
      assert created[k].rom == Some(rom) && created[k].end == end;
    }
    if k :| 0 <= k < |created| && created[k].rom == Some(rom) && created[k].end == end {
      assert CreatedResults(ids)[k].index == ids[k];
      assert Contributes(b, existing, rom, ids[k]);
    }
  }

  lemma ContributionsCarry(b: Batch, existing: set<Key>, shuffled: seq<Entry>, rom: nat, i: nat) returns (j: nat)
    requires i < |b.entries| && b.entries[i] in shuffled && Contributes(b, existing, rom, i)
    ensures j < |shuffled| && shuffled[j] == b.entries[i] && Contributes(b.(entries := shuffled), existing, rom, j)
  {
    j :| 0 <= j < |shuffled| && shuffled[j] == b.entries[i];
  }

  lemma EndsCarry(log: Log, b: Batch, shuffled: seq<Entry>, rom: nat, end: int)
    requires Consistent(b) && Consistent(b.(entries := shuffled)) && forall e | e in b.entries :: e in shuffled
    requires end in EndsFor(Inserted(b, ToInsert(b, log.sessions)), rom)
    ensures var b' := b.(entries := shuffled); end in EndsFor(Inserted(b', ToInsert(b', log.sessions)), rom)
  {
    var existing := Existing(log.sessions, b.device);
    CreatedEnds(log, b, rom, end);
    CreatedEnds(log, b.(entries := shuffled), rom, end);
    hide Contributes, EndsFor, Consistent, Existing;
    var i :| 0 <= i < |b.entries| && Contributes(b, existing, rom, i) && b.entries[i].end == end;
    var j := ContributionsCarry(b, existing, shuffled, rom, i);
  }

  lemma SameMax(v: Option<int>, u: Option<int>, start: Option<int>, ends: set<int>)
    requires IsMax(v, start, ends) && IsMax(u, start, ends)
    ensures v == u
  {
    if v.Some? && u.Some? {
      assert v.value <= u.value && u.value <= v.value;
    }
  }

  /** When equal keys carry equal ends, the order of a batch does not matter to last played. */
  lemma OrderDoesNotMatter(log: Log, b: Batch, shuffled: seq<Entry>, rom: nat)
    requires Consistent(b) && Consistent(b.(entries := shuffled)) && forall e :: e in b.entries <==> e in shuffled
    ensures LastPlayed(Ingest(log, b), rom) == LastPlayed(Ingest(log, b.(entries := shuffled)), rom)
  {
    var b' := b.(entries := shuffled);
    var ends, ends' := EndsFor(Inserted(b, ToInsert(b, log.sessions)), rom), EndsFor(Inserted(b', ToInsert(b', log.sessions)), rom);
    hide EndsFor, Ingest, Consistent, IsMax, LastPlayed, Inserted, ToInsert;
    forall end | end in ends ensures end in ends' { EndsCarry(log, b, shuffled, rom, end); }
    assert b == b'.(entries := b.entries);
    forall end | end in ends' ensures end in ends { EndsCarry(log, b', b.entries, rom, end); }
    assert ends == ends';
    LastPlayedIsNewest(log, b, rom);
    LastPlayedIsNewest(log, b', rom);
    SameMax(LastPlayed(Ingest(log, b), rom), LastPlayed(Ingest(log, b'), rom), LastPlayed(log, rom), ends);
  }

  // ---- What is stored ----

  /** A created entry is stored with the device, its own times, and its ROM if that is a known one. */
  lemma CreatedIsStored(log: Log, b: Batch, i: nat)
    requires i < |b.entries| && VerdictAt(b, Existing(log.sessions, b.device), i) == Created
    ensures var e := b.entries[i];
            var rom := if e.rom.Some? && e.rom.value != 0 && e.rom.value in b.library then e.rom else None;
            Session(b.device, rom, e.start, e.end) in Ingest(log, b).sessions
  {
    var k := CreatedIsInserted(log, b, i);
    var ids := ToInsert(b, log.sessions);
    IngestAppends(log, b);
    hide ToInsert, Ingest;
    assert Inserted(b, ids)[k] == SessionAt(b, i);
    assert (log.sessions + Inserted(b, ids))[|log.sessions| + k] == SessionAt(b, i);
  }

  lemma CreatedIsInserted(log: Log, b: Batch, i: nat) returns (k: nat)
    requires i < |b.entries| && VerdictAt(b, Existing(log.sessions, b.device), i) == Created
    ensures k < |ToInsert(b, log.sessions)| && ToInsert(b, log.sessions)[k] == i
  {
    var existing, n := Existing(log.sessions, b.device), |b.entries|;
    AllListed(b, existing, n);
    var ids := FreshUpTo(b, existing, n);
    assert ids == ToInsert(b, log.sessions);
    hide ToInsert, FreshUpTo, VerdictAt, Existing, ErrorsUpTo, RepeatsUpTo;
    assert Result(i, Created) in CreatedResults(ids);
    k :| 0 <= k < |ids| && CreatedResults(ids)[k] == Result(i, Created);
  }

  /** Playing again puts an empty or finished status back to incomplete, and only a newer end does. */
  lemma StatusMeans(u: RomUser, end: int)
    ensures var played, newer := Played(u, end), u.lastPlayed.None? || u.lastPlayed.value < end;
            && (newer ==> played.lastPlayed == Some(end) && played.nowPlaying)
            && (!newer ==> played == u)
            && (u.status in {Some(Completed100), Some(Retired), Some(NeverPlaying)} ==> played.status == u.status)
            && (newer && u.status in {None, Some(Finished), Some(Incomplete)} ==> played.status == Some(Incomplete))
  {
  }
}
