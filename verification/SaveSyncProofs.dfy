/** What save sync keeps: request by request, over whole runs, and exactly when. */
module SaveSyncProofs {
  import opened Common
  import opened SaveSync

  // ---- The comparison ----

  function Mirrored(a: Action): Action {
    match a
    case UploadIt => DownloadIt
    case DownloadIt => UploadIt
    case Conflict => Conflict
    case NoOp => NoOp
  }

  /** Neither side is favoured: exchanging the two copies exchanges the two directions. And
      nothing is overwritten unseen: an upload over a stamped save leaves no server change
      behind, and a download no client change. */
  lemma ComparisonIsFair(clientHash: Option<Digest>, clientAt: int, serverHash: Option<Digest>, serverAt: int, lastSynced: Option<int>)
    ensures var action := CompareSaveState(clientHash, clientAt, serverHash, serverAt, lastSynced);
            && CompareSaveState(serverHash, serverAt, clientHash, clientAt, lastSynced) == Mirrored(action)
            && (lastSynced.Some? && action == UploadIt ==> serverAt <= lastSynced.value < clientAt)
            && (lastSynced.Some? && action == DownloadIt ==> clientAt <= lastSynced.value < serverAt)
            && (action == NoOp && clientHash != serverHash ==>
                  lastSynced.Some? && clientAt <= lastSynced.value && serverAt <= lastSynced.value)
  {
  }

  // ---- Building blocks ----

  /** Stamping a device at or past the row's timestamp is sound exactly when it holds the
      content, which it does when that content is what was just exchanged. */
  lemma StampKeeps(s: State, d: Device, id: nat, at: int, content: Option<Content>)
    requires Inv(s) && id in s.rows && (Bounded(s) ==> s.rows[id].updatedAt <= at <= s.clock)
    ensures Inv(StampAt(s, d, id, at, content)) <==>
            (if content.Some? then Digest(content.value) == s.rows[id].hash else Holds(s, d, id))
  {
    var s' := StampAt(s, d, id, at, content);
    assert Current(s', d, id);
    if Holds(s', d, id) {
      forall e, x | x in s'.rows && Current(s', e, x) ensures Holds(s', e, x) {
        if (e, x) != (d, id) {
          assert Current(s, e, x);
          assert Holds(s, e, x);
        }
      }
    }
  }

  /** Giving one row the next timestamp, its name and path unchanged, keeps rows distinct. */
  lemma RetimedRow(s: State, id: nat, hash: Digest)
    requires Valid(s) && id in s.rows
    ensures var s' := s.(clock := s.clock + 1, rows := s.rows[id := s.rows[id].(hash := hash, updatedAt := s.clock + 1)]);
            Valid(s') && (Apart(s) ==> Apart(s'))
  {
    var s' := s.(clock := s.clock + 1, rows := s.rows[id := s.rows[id].(hash := hash, updatedAt := s.clock + 1)]);
    forall i, j | i in s.rows && j in s.rows && i != j
      ensures !SameTime(s'.rows[i], s'.rows[j]) && !SameName(s'.rows[i], s'.rows[j])
      ensures SamePath(s'.rows[i], s'.rows[j]) <==> SamePath(s.rows[i], s.rows[j])
    {
      assert !SameTime(s.rows[i], s.rows[j]) && !SameName(s.rows[i], s.rows[j]);
    }
  }

  lemma WriteRowKeeps(s: State, id: nat, content: Content)
    requires Inv(s) && id in s.rows
    ensures Inv(WriteRow(s, id, content))
    ensures forall d :: !Current(WriteRow(s, id, content), d, id)
  {
    var s' := WriteRow(s, id, content);
    RetimedRow(s, id, Digest(content));
    forall x | x in s.rows && x != id ensures s.rows[x].Location() != s.rows[id].Location() {
      assert !SamePath(s.rows[x], s.rows[id]);
    }
    forall e, x | x in s'.rows && Current(s', e, x) ensures Holds(s', e, x) {
      assert (e, x) in s.stamps && s.stamps[(e, x)].at <= s.clock;
      assert Current(s, e, x);
    }
  }

  lemma TickKeeps(s: State)
    requires Inv(s)
    ensures Inv(s.(clock := s.clock + 1))
  {
    var s' := s.(clock := s.clock + 1);
    forall e, x | x in s'.rows && Current(s', e, x) ensures Holds(s', e, x) {
      assert Current(s, e, x);
    }
  }

  lemma RemoveValid(s: State, ids: set<nat>)
    requires Valid(s)
    ensures Valid(Remove(s, ids))
  {
  }

  lemma RemoveKeeps(s: State, ids: set<nat>)
    requires Inv(s)
    ensures Inv(Remove(s, ids))
  {
    var s' := Remove(s, ids);
    forall x, y | x in s'.rows && y in ids && y in s.rows ensures s.rows[x].Location() != s.rows[y].Location() {
      assert !SamePath(s.rows[x], s.rows[y]);
    }
    forall e, x | x in s'.rows && Current(s', e, x) ensures Holds(s', e, x) {
      assert Current(s, e, x);
    }
  }

  lemma DeliverKeeps(s: State, d: Device, id: nat)
    requires Inv(s) && id in s.rows
    ensures Inv(Deliver(s, d, id))
  {
    assert Digest(s.files[s.rows[id].Location()]) == s.rows[id].hash && s.rows[id].updatedAt <= s.clock;
    hide Valid, Agree, Apart, Sound;
    TickKeeps(s);
    var p := s.rows[id].Location();
    StampKeeps(s.(clock := s.clock + 1), d, id, s.clock + 1, Some(s.files[p]));
  }

  // ---- Uploads ----

  lemma WrittenValid(s: State, q: Upload)
    requires Valid(s)
    ensures Valid(Written(s, q)) && Valid(Store(s, q))
  {
    var s', id := Written(s, q), StoredId(s, q);
    forall x | x in s.rows && x != id ensures !SameName(s.rows[x], NewRow(s, q)) {
      if SameName(s.rows[x], NewRow(s, q)) {
        FreshName(s, q, x);
      }
    }
    forall i, j | i in s'.rows && j in s'.rows && i != j
      ensures !SameTime(s'.rows[i], s'.rows[j]) && !SameName(s'.rows[i], s'.rows[j])
    {
      if i == id || j == id {
        var x := if i == id then j else i;
        assert x in s.rows && s'.rows[x] == s.rows[x] && !SameName(s.rows[x], NewRow(s, q));
      } else {
        assert !SameTime(s.rows[i], s.rows[j]) && !SameName(s.rows[i], s.rows[j]);
      }
    }
  }

  /** The stored row's name in its slot belongs to no other row. */
  lemma FreshName(s: State, q: Upload, x: nat)
    requires Valid(s) && x in s.rows && SameName(s.rows[x], NewRow(s, q))
    ensures x == StoredId(s, q)
  {
    if Named(s, q).Some? {
      var id := Named(s, q).value;
      assert id in Matching(s.rows, q.rom, q.name, q.slot);
      assert SameName(s.rows[x], s.rows[id]);
    } else if Overwritten(s, q).Some? && q.slot.None? {
      assert SameName(s.rows[x], s.rows[Overwritten(s, q).value]);
    } else if x !in Matching(s.rows, q.rom, q.name, q.slot) {
      assert false;
    }
  }

  /** A target is free when no row but the one being overwritten uses its path. */
  predicate FreeTarget(s: State, q: Upload) {
    At(s.rows, q.Target()) <= (if Overwritten(s, q).Some? then {Overwritten(s, q).value} else {})
  }

  lemma NewRowLocation(s: State, q: Upload)
    ensures NewRow(s, q).Location() == q.Target() && NewRow(s, q).hash == Digest(q.content)
  {
  }

  lemma WrittenAgrees(s: State, q: Upload)
    requires Inv(s) && FreeTarget(s, q)
    ensures Agree(Written(s, q)) && Apart(Written(s, q))
  {
    var s', id, p := Written(s, q), StoredId(s, q), q.Target();
    NewRowLocation(s, q);
    forall x | x in s.rows && x != id
      ensures s.rows[x].Location() != p && s.rows[x].Location() !in StaleBytes(s, q)
    {
      assert x !in At(s.rows, p);
      if Overwritten(s, q).Some? { assert !SamePath(s.rows[x], s.rows[id]); }
    }
    forall i, j | i in s'.rows && j in s'.rows && i != j ensures !SamePath(s'.rows[i], s'.rows[j]) {
      if i != id && j != id { assert !SamePath(s.rows[i], s.rows[j]); }
    }
  }

  lemma StoreKeeps(s: State, q: Upload)
    requires Inv(s) && FreeTarget(s, q)
    ensures Inv(Store(s, q))
  {
    var s', id := Written(s, q), StoredId(s, q);
    WrittenValid(s, q);
    WrittenAgrees(s, q);
    forall e, x | x in s'.rows && Current(s', e, x) ensures Holds(s', e, x) {
      assert (e, x) in s.stamps && s.stamps[(e, x)].at <= s.clock;
      assert x != id;
      assert Current(s, e, x);
    }
    if q.device.Some? {
      NewRowLocation(s, q);
      StampKeeps(s', q.device.value, id, s.clock + 1, Some(q.content));
    }
  }

  /** Another row on the target path is left sharing it, and retention never drops that
      row: within one slot, the name determines the row. */
  lemma StoreBreaks(s: State, q: Upload)
    requires Inv(s) && !FreeTarget(s, q)
    ensures !Apart(Cleanup(Store(s, q), q))
  {
    var t, id := Store(s, q), StoredId(s, q);
    NewRowLocation(s, q);
    WrittenValid(s, q);
    var x :| x in At(s.rows, q.Target()) && x != id;
    if q.Slotted() && q.autocleanup {
      if x in SlotIds(t.rows, q.rom, q.slot) {
        FreshName(s, q, x);
      }
      NewestKept(t, SlotIds(t.rows, q.rom, q.slot), id, ClampLimit(q.limit));
    }
    var c := Cleanup(t, q);
    assert x in c.rows && id in c.rows && SamePath(c.rows[x], c.rows[id]);
  }

  lemma NewestKept(s: State, ids: set<nat>, id: nat, limit: nat)
    requires Valid(s)
    requires ids <= s.rows.Keys && id in ids && s.rows[id].updatedAt == s.clock && limit >= 1
    ensures id !in Expired(s, ids, limit)
  {
    assert Newer(s, ids, id) == {};
  }

  lemma CleanupKeeps(s: State, q: Upload)
    requires Inv(s)
    ensures Inv(Cleanup(s, q))
  {
    RemoveKeeps(s, if q.Slotted() && q.autocleanup then Expired(s, SlotIds(s.rows, q.rom, q.slot), ClampLimit(q.limit)) else {});
  }

  predicate CleanUpload(s: State, q: Upload)
    requires Valid(s)
  {
    || Refused(s, q)
    || (if Duplicate(s, q) then At(s.rows, q.Target()) == {} else FreeTarget(s, q))
  }

  lemma UploadExactly(s: State, q: Upload)
    requires Inv(s)
    ensures Inv(AddStep(s, q)) <==> CleanUpload(s, q)
  {
    if Refused(s, q) {
    } else if Duplicate(s, q) {
      DuplicateExactly(s, q);
    } else if FreeTarget(s, q) {
      StoreKeeps(s, q);
      CleanupKeeps(Store(s, q), q);
    } else {
      StoreBreaks(s, q);
    }
  }

  lemma NobodyAt(s: State, p: Path)
    requires At(s.rows, p) == {}
    ensures forall x | x in s.rows :: s.rows[x].Location() != p
  {
    forall x | x in s.rows ensures s.rows[x].Location() != p {
      assert x !in At(s.rows, p);
    }
  }

  lemma DuplicateExactly(s: State, q: Upload)
    requires Inv(s) && !Refused(s, q) && Duplicate(s, q)
    ensures Inv(AddStep(s, q)) <==> At(s.rows, q.Target()) == {}
  {
    var s' := AddStep(s, q);
    if At(s.rows, q.Target()) == {} {
      NobodyAt(s, q.Target());
      forall e, x | x in s'.rows && Current(s', e, x) ensures Holds(s', e, x) {
        assert Current(s, e, x);
      }
    } else {
      var x :| x in At(s.rows, q.Target());
      assert x in s'.rows && s'.rows[x].Location() !in s'.files;
    }
  }

  // ---- Every request ----

  /** What a caller can check before a request: the upload's path is free, and a device
      that claims a save without exchanging bytes holds the present content. */
  predicate Clean(s: State, r: Request)
    requires Valid(s)
  {
    match r
    case Add(q) => CleanUpload(s, q)
    case Confirm(d, id) => id in s.rows ==> Holds(s, d, id)
    case Put(w, id, file) => id in s.rows && w.Some? && file.None? ==> Holds(s, w.value, id)
    case Track(d, id, untracked) =>
      id in s.rows && untracked && (d, id) !in s.stamps ==> Holds(s, d, id)
    case _ => true
  }

  lemma AddValid(s: State, q: Upload)
    requires Valid(s)
    ensures Valid(AddStep(s, q))
  {
    WrittenValid(s, q);
    if q.Slotted() && q.autocleanup {
      var t := Store(s, q);
      RemoveValid(t, Expired(t, SlotIds(t.rows, q.rom, q.slot), ClampLimit(q.limit)));
    }
  }

  lemma StampNowValid(s: State, d: Device, id: nat, content: Option<Content>)
    requires Valid(s) && id in s.rows
    ensures Valid(StampNow(s, d, id, content))
    ensures Valid(StampAt(s, d, id, s.rows[id].updatedAt, content))
  {
  }

  lemma ExchangeValid(s: State, d: Device, id: nat, content: Content)
    requires Valid(s) && id in s.rows
    ensures Valid(WriteRow(s, id, content))
    ensures Valid(StampNow(WriteRow(s, id, content), d, id, Some(content)))
    ensures Valid(Deliver(s, d, id))
  {
    RetimedRow(s, id, Digest(content));
    assert Valid(WriteRow(s, id, content));
    StampNowValid(WriteRow(s, id, content), d, id, Some(content));
    StampNowValid(s, d, id, if s.rows[id].Location() in s.files then Some(s.files[s.rows[id].Location()]) else None);
  }

  lemma FlaggedValid(s: State, d: Device, id: nat, untracked: bool)
    requires Valid(s)
    ensures Valid(Step(s, Track(d, id, untracked)))
  {
  }

  lemma LocalValid(s: State, r: Request)
    requires Valid(s) && (r.Download? || r.Put? || r.Visibility?)
    ensures Valid(Step(s, r))
  {
    if r.id in s.rows {
      match r
      case Download(_, id, _, _) =>
      case Visibility(id) => RetimedRow(s, id, s.rows[id].hash);
      case Put(w, id, file) =>
        if file.Some? { RetimedRow(s, id, Digest(file.value)); }
        var s' := if file.Some? then WriteRow(s, id, file.value) else s;
        if w.Some? { StampNowValid(s', w.value, id, file); }
    }
  }

  lemma ValidKept(s: State, r: Request)
    requires Valid(s)
    ensures Valid(Step(s, r))
  {
    hide Bounded, DistinctTimes, DistinctNames, AddStep, Deliver, StampNow, StampAt, Compared;
    match r
    case Add(q) => AddValid(s, q);
    case Download(_, _, _, _) => LocalValid(s, r);
    case Confirm(d, id) => if id in s.rows { StampNowValid(s, d, id, None); }
    case Put(_, _, _) => LocalValid(s, r);
    case Visibility(_) => LocalValid(s, r);
    case Delete(id) => if id in s.rows { RemoveValid(s, {id}); }
    case Track(d, id, untracked) => FlaggedValid(s, d, id, untracked);
    case Incoming(d, id, content, _) => if id in s.rows { ExchangeValid(s, d, id, content); }
    case Remote(d, id, content, _, _) =>
      if id in s.rows { ExchangeValid(s, d, id, content); StampNowValid(s, d, id, Seen(s, id, content)); }
    case Push(d, id, _) => if id in s.rows { ExchangeValid(s, d, id, ""); }
  }

  /** Each request keeps the invariant exactly when it is clean. */
  lemma StepExactly(s: State, r: Request)
    requires Inv(s)
    ensures Inv(Step(s, r)) <==> Clean(s, r)
  {
    hide Valid, Agree, Apart, Sound;
    match r
    case Add(q) => UploadExactly(s, q);
    case Download(reader, id, optimistic, owner) => DownloadKeeps(s, r);
    case Confirm(d, id) =>
      if id in s.rows { StampKeeps(s, d, id, s.rows[id].updatedAt, None); }
    case Put(w, id, file) => PutExactly(s, w, id, file);
    case Visibility(id) => VisibilityKeeps(s, id);
    case Delete(id) => if id in s.rows { RemoveKeeps(s, {id}); }
    case Track(d, id, untracked) => TrackExactly(s, d, id, untracked);
    case Incoming(d, id, content, mtime) =>
      if id in s.rows && s.rows[id].slot.Some? { ExchangeKeeps(s, d, id, content); }
    case Remote(d, id, content, mtime, transferred) =>
      if id in s.rows && s.rows[id].slot.Some? {
        ExchangeKeeps(s, d, id, content);
        if Compared(s, d, id, content, mtime).NoOp? { NoOpStampKeeps(s, d, id, content, mtime); }
      }
    case Push(d, id, transferred) =>
      if id in s.rows { DeliverKeeps(s, d, id); }
  }

  lemma DownloadKeeps(s: State, r: Request)
    requires Inv(s) && r.Download?
    ensures Inv(Step(s, r))
  {
    if r.id in s.rows && r.reader.Some? {
      var d, served := r.reader.value, s.files[s.rows[r.id].Location()];
      if r.optimistic && r.owner {
        StampKeeps(s, d, r.id, s.rows[r.id].updatedAt, Some(served));
      } else {
        var s' := Step(s, r);
        forall e, x | x in s'.rows && Current(s', e, x) ensures Holds(s', e, x) {
          assert Current(s, e, x);
          assert Holds(s, e, x);
        }
      }
    }
  }

  lemma PutExactly(s: State, w: Option<Device>, id: nat, file: Option<Content>)
    requires Inv(s)
    ensures Inv(Step(s, Put(w, id, file))) <==> Clean(s, Put(w, id, file))
  {
    if id in s.rows {
      if file.Some? {
        WriteRowKeeps(s, id, file.value);
      }
      var s' := if file.Some? then WriteRow(s, id, file.value) else s;
      if w.Some? { StampKeeps(s', w.value, id, s'.rows[id].updatedAt, file); }
    }
  }

  lemma VisibilityKeeps(s: State, id: nat)
    requires Inv(s)
    ensures Inv(Step(s, Visibility(id)))
  {
    var s' := Step(s, Visibility(id));
    if id in s.rows { RetimedRow(s, id, s.rows[id].hash); }
    forall e, x | x in s'.rows && Current(s', e, x) ensures Holds(s', e, x) {
      assert (e, x) in s.stamps && s.stamps[(e, x)].at <= s.clock;
      assert Current(s, e, x);
      assert Holds(s, e, x);
    }
  }

  lemma TrackExactly(s: State, d: Device, id: nat, untracked: bool)
    requires Inv(s)
    ensures Inv(Step(s, Track(d, id, untracked))) <==> Clean(s, Track(d, id, untracked))
  {
    var s' := Step(s, Track(d, id, untracked));
    if id in s.rows && (untracked || (d, id) in s.stamps) {
      if (d, id) !in s.stamps { assert Current(s', d, id); }
      if Clean(s, Track(d, id, untracked)) {
        forall e, x | x in s'.rows && Current(s', e, x) ensures Holds(s', e, x) {
          if (e, x) != (d, id) || (d, id) in s.stamps { assert Current(s, e, x); }
        }
      }
    }
  }

  /** Both directions of a watcher or push-pull exchange stamp a device that holds. */
  lemma ExchangeKeeps(s: State, d: Device, id: nat, content: Content)
    requires Inv(s) && id in s.rows
    ensures Inv(StampNow(WriteRow(s, id, content), d, id, Some(content)))
    ensures Inv(Deliver(s, d, id))
  {
    DeliverKeeps(s, d, id);
    WriteRowKeeps(s, id, content);
    var w := WriteRow(s, id, content);
    TickKeeps(w);
    StampKeeps(w.(clock := w.clock + 1), d, id, w.clock + 1, Some(content));
  }

  /** The push-pull no-op stamp is sound: either the copies are equal, or the device was
      already stamped past the row and so held its content. */
  lemma NoOpStampKeeps(s: State, d: Device, id: nat, content: Content, mtime: int)
    requires Inv(s) && id in s.rows && Compared(s, d, id, content, mtime) == NoOp
    ensures Inv(StampNow(s, d, id, Seen(s, id, content)))
  {
    TickKeeps(s);
    if Digest(content) != s.rows[id].hash {
      assert Current(s, d, id);
      assert Holds(s, d, id);
    }
    StampKeeps(s.(clock := s.clock + 1), d, id, s.clock + 1, Seen(s, id, content));
  }

  // ---- Whole runs ----

  /** A delivery that overwrites a save: with a stamp the device held what it replaces;
      without one, a newer file time alone lets it replace content it never saw. */
  lemma DeliveryOverwrites(s: State, d: Device, id: nat, content: Content, mtime: int)
    requires Inv(s) && id in s.rows && s.rows[id].slot.Some? && Compared(s, d, id, content, mtime) == UploadIt
    ensures (d, id) in s.stamps ==> Holds(s, d, id)
    ensures (d, id) !in s.stamps ==> mtime > s.rows[id].updatedAt
    ensures var t := Step(s, Incoming(d, id, content, mtime));
            t == Step(s, Remote(d, id, content, mtime, true)) && t.rows[id].hash == Digest(content) != s.rows[id].hash
  {
    if (d, id) in s.stamps {
      assert Current(s, d, id);
    }
    hide Inv;
  }

  function Run(s: State, rs: seq<Request>): (t: State)
    requires Valid(s)
    ensures Valid(t)
    decreases |rs|
  {
    if rs == [] then s
    else
      ValidKept(s, rs[0]);
      Run(Step(s, rs[0]), rs[1..])
  }

  ghost predicate CleanRun(s: State, rs: seq<Request>)
    requires Valid(s)
    decreases |rs|
  {
    rs == [] || (ValidKept(s, rs[0]); Clean(s, rs[0]) && CleanRun(Step(s, rs[0]), rs[1..]))
  }

  lemma {:induction false} RunKeeps(s: State, rs: seq<Request>)
    requires Inv(s) && CleanRun(s, rs)
    ensures Inv(Run(s, rs))
    decreases |rs|
  {
    if rs != [] {
      StepExactly(s, rs[0]);
      RunKeeps(Step(s, rs[0]), rs[1..]);
    }
  }

  /** The invariant holds from here to the end. */
  ghost predicate AlwaysInv(s: State, rs: seq<Request>)
    requires Valid(s)
    decreases |rs|
  {
    Inv(s) && (rs == [] || (ValidKept(s, rs[0]); AlwaysInv(Step(s, rs[0]), rs[1..])))
  }

  lemma {:induction false} InvFrom(s: State, rs: seq<Request>)
    requires Inv(s)
    ensures AlwaysInv(s, rs) <==> CleanRun(s, rs)
    decreases |rs|
  {
    if rs != [] {
      StepExactly(s, rs[0]);
      ValidKept(s, rs[0]);
      if Inv(Step(s, rs[0])) { InvFrom(Step(s, rs[0]), rs[1..]); }
    }
    hide Valid, Agree, Apart, Sound, Step, Clean;
  }

  /** From an empty server, the invariant holds at every moment of a run if and only if the run
      is clean. */
  lemma RunKeepsExactly(rs: seq<Request>)
    ensures Valid(EMPTY) && (AlwaysInv(EMPTY, rs) <==> CleanRun(EMPTY, rs))
  {
    InvFrom(EMPTY, rs);
  }

  // ---- Retention ----

  /** Newer rows of a set come first: its members strictly above `id`, plus `id`, are
      the ones not below. */
  ghost predicate NewestFirst(s: State, ids: seq<nat>)
  {
    && (forall i | 0 <= i < |ids| :: ids[i] in s.rows)
    && (forall i, j | 0 <= i < j < |ids| :: s.rows[ids[i]].updatedAt > s.rows[ids[j]].updatedAt)
  }

  lemma RankIsPosition(s: State, ids: seq<nat>, i: nat)
    requires NewestFirst(s, ids) && i < |ids|
    ensures Newer(s, Members(ids), ids[i]) == Members(ids[..i])
    ensures |Newer(s, Members(ids), ids[i])| == i
  {
    var all := Members(ids);
    forall x | x in Newer(s, all, ids[i]) ensures x in ids[..i] {
      var k :| 0 <= k < |ids| && ids[k] == x;
      assert k < i;
    }
    forall x | x in ids[..i] ensures x in Newer(s, all, ids[i]) {
      var k :| 0 <= k < i && ids[k] == x;
    }
    DistinctCount(ids[..i]);
  }

  /** Listed newest first, retention drops exactly the tail past the limit. */
  lemma ExpiredIsTail(s: State, ids: seq<nat>, limit: nat)
    requires NewestFirst(s, ids)
    ensures Expired(s, Members(ids), limit) == Members(if limit <= |ids| then ids[limit..] else [])
  {
    var all := Members(ids);
    forall i | 0 <= i < |ids| ensures |Newer(s, all, ids[i])| == i {
      RankIsPosition(s, ids, i);
    }
    var tail := if limit <= |ids| then ids[limit..] else [];
    forall x | x in Expired(s, all, limit) ensures x in tail {
      var i :| 0 <= i < |ids| && ids[i] == x;
      assert i >= limit && x == tail[i - limit];
    }
    forall x | x in tail ensures x in Expired(s, all, limit) {
      var i :| 0 <= i < |tail| && tail[i] == x;
      assert ids[limit + i] == x;
    }
  }

  /** Every finite set of rows with distinct timestamps has its newest-first listing. */
  lemma Listing(s: State, ids: set<nat>) returns (l: seq<nat>)
    requires DistinctTimes(s) && ids <= s.rows.Keys
    ensures NewestFirst(s, l) && Members(l) == ids && |l| == |ids|
  {
    if ids == {} {
      l := [];
    } else {
      NewestExists(s, ids);
      var n :| IsNewest(s, ids, n);
      var rest := Listing(s, ids - {n});
      NewestLeads(s, ids, n, rest);
      l := [n] + rest;
    }
  }

  lemma NewestLeads(s: State, ids: set<nat>, n: nat, rest: seq<nat>)
    requires DistinctTimes(s) && ids <= s.rows.Keys && IsNewest(s, ids, n)
    requires NewestFirst(s, rest) && Members(rest) == ids - {n}
    ensures NewestFirst(s, [n] + rest) && Members([n] + rest) == ids
  {
    var l := [n] + rest;
    forall i, j | 0 <= i < j < |l| ensures s.rows[l[i]].updatedAt > s.rows[l[j]].updatedAt {
      assert l[j] == rest[j - 1] && rest[j - 1] in Members(rest);
      if i == 0 {
        assert !SameTime(s.rows[n], s.rows[l[j]]);
      } else {
        assert l[i] == rest[i - 1];
      }
    }
    forall i | 0 <= i < |l| ensures l[i] in s.rows {
      if i > 0 { assert l[i] == rest[i - 1]; }
    }
    forall x | x in ids ensures x in l {
      if x != n { assert x in Members(rest); }
    }
    forall x | x in l ensures x in ids {
      if x != n { assert x in Members(rest); }
    }
  }

  /** Dropping the expired rows keeps the newest min(n, limit) of them. */
  lemma UnexpiredAreNewest(s: State, ids: set<nat>, limit: nat)
    requires DistinctTimes(s) && ids <= s.rows.Keys
    ensures var kept := ids - Expired(s, ids, limit);
      && |kept| == (if |ids| < limit then |ids| else limit)
      && (forall keep, drop | keep in kept && drop in ids - kept ::
            s.rows[keep].updatedAt > s.rows[drop].updatedAt)
  {
    var l := Listing(s, ids);
    ExpiredIsTail(s, l, limit);
    hide DistinctTimes, Expired;
    SplitAt(s, l, if limit <= |l| then limit else |l|);
  }

  lemma SplitAt(s: State, l: seq<nat>, n: nat)
    requires NewestFirst(s, l) && n <= |l|
    ensures Members(l) - Members(l[n..]) == Members(l[..n]) && |Members(l[..n])| == n
    ensures forall keep, drop | keep in l[..n] && drop in l[n..] :: s.rows[keep].updatedAt > s.rows[drop].updatedAt
  {
    forall keep, drop | keep in l[..n] && drop in l[n..] ensures s.rows[keep].updatedAt > s.rows[drop].updatedAt {
      var i :| 0 <= i < n && l[i] == keep;
      var j :| n <= j < |l| && l[j] == drop;
    }
    assert l == l[..n] + l[n..];
    DistinctCount(l[..n]);
  }

  /** After an accepted slot upload with cleanup, the slot keeps its newest min(n, limit)
      rows and the one just stored is among them; no other slot loses a row. */
  lemma RetentionKeepsNewest(s: State, q: Upload)
    requires Valid(s) && AddOutcome(s, q).Stored? && q.Slotted() && q.autocleanup
    ensures
      var t, s' := Store(s, q), AddStep(s, q);
      var before, after := SlotIds(t.rows, q.rom, q.slot), SlotIds(s'.rows, q.rom, q.slot);
      var limit := ClampLimit(q.limit);
      && |after| == (if |before| < limit then |before| else limit)
      && after <= before
      && StoredId(s, q) in after
      && (forall keep, drop | keep in after && drop in before - after ::
            t.rows[keep].updatedAt > t.rows[drop].updatedAt)
      && (forall id | id in t.rows && id !in before :: id in s'.rows && s'.rows[id] == t.rows[id])
  {
    WrittenValid(s, q);
    StoredInSlot(s, q);
    PruneKeepsNewest(Store(s, q), q.rom, q.slot, StoredId(s, q), ClampLimit(q.limit));
  }

  lemma PruneKeepsNewest(t: State, rom: nat, slot: Option<string>, id: nat, limit: nat)
    requires Valid(t) && limit >= 1 && id in SlotIds(t.rows, rom, slot) && t.rows[id].updatedAt == t.clock
    ensures
      var before := SlotIds(t.rows, rom, slot);
      var s' := Remove(t, Expired(t, before, limit));
      var after := SlotIds(s'.rows, rom, slot);
      && |after| == (if |before| < limit then |before| else limit)
      && after <= before
      && id in after
      && (forall keep, drop | keep in after && drop in before - after ::
            t.rows[keep].updatedAt > t.rows[drop].updatedAt)
      && (forall x | x in t.rows && x !in before :: x in s'.rows && s'.rows[x] == t.rows[x])
  {
    var before := SlotIds(t.rows, rom, slot);
    UnexpiredAreNewest(t, before, limit);
    NewestKept(t, before, id, limit);
    PrunedSlot(t, rom, slot, Expired(t, before, limit));
    hide Valid, Expired, Remove, SlotIds;
  }

  lemma PrunedSlot(t: State, rom: nat, slot: Option<string>, ids: set<nat>)
    requires ids <= SlotIds(t.rows, rom, slot)
    ensures SlotIds(Remove(t, ids).rows, rom, slot) == SlotIds(t.rows, rom, slot) - ids
    ensures forall x | x in t.rows && x !in SlotIds(t.rows, rom, slot) ::
              x in Remove(t, ids).rows && Remove(t, ids).rows[x] == t.rows[x]
  {
  }

  lemma StoredInSlot(s: State, q: Upload)
    requires q.slot.Some?
    ensures var t := Store(s, q);
            StoredId(s, q) in SlotIds(t.rows, q.rom, q.slot) && t.rows[StoredId(s, q)].updatedAt == t.clock
  {
  }

  // ---- What an accepted slot upload costs the others ----

  /** The rows retention drops after an upload was stored. */
  function Dropped(t: State, q: Upload): set<nat> {
    if q.Slotted() && q.autocleanup then Expired(t, SlotIds(t.rows, q.rom, q.slot), ClampLimit(q.limit)) else {}
  }

  lemma CleanupDrops(t: State, q: Upload)
    ensures Cleanup(t, q) == Remove(t, Dropped(t, q))
  {
    var r := Remove(t, {});
    assert r.rows == t.rows && r.stamps == t.stamps && Locations(t.rows, {}) == {};
    assert r.files == t.files && r == t;
  }

  /** Removing rows that share no file with the others leaves the others their row and bytes. */
  lemma OthersKeepTheirBytes(t: State, ids: set<nat>, id: nat)
    requires Apart(t) && id in t.rows && id !in ids && t.rows[id].Location() in t.files
    ensures var u := Remove(t, ids);
            id in u.rows && u.rows[id] == t.rows[id]
            && t.rows[id].Location() in u.files && u.files[t.rows[id].Location()] == t.files[t.rows[id].Location()]
  {
    forall y | y in ids && y in t.rows ensures t.rows[y].Location() != t.rows[id].Location() {
      assert !SamePath(t.rows[y], t.rows[id]);
    }
  }

  lemma StoreOnlyAdds(s: State, q: Upload)
    requires Inv(s) && At(s.rows, q.Target()) == {} && Named(s, q).None?
    ensures var t := Store(s, q);
      && Inv(t) && StoredId(s, q) == s.nextId && t.rows.Keys == s.rows.Keys + {s.nextId}
      && t.rows[s.nextId].hash == Digest(q.content) && t.rows[s.nextId].Location() in t.files
      && (forall id | id in s.rows ::
            && t.rows[id] == s.rows[id]
            && s.rows[id].Location() in t.files && t.files[s.rows[id].Location()] == s.files[s.rows[id].Location()])
  {
    NobodyAt(s, q.Target());
    StoreKeeps(s, q);
  }

  /** With a target path no row uses, a slot upload changes nothing but the rows retention
      drops: every other earlier row keeps its digest, its timestamp and its bytes, and the
      stored one stays. */
  lemma SlotUploadOnlyAdds(s: State, q: Upload)
    requires Inv(s) && AddOutcome(s, q).Stored? && At(s.rows, q.Target()) == {} && Named(s, q).None?
    ensures var s', gone := AddStep(s, q), Dropped(Store(s, q), q);
      && (forall id | id in s.rows && id !in gone ::
            && id in s'.rows && s'.rows[id] == s.rows[id]
            && s.rows[id].Location() in s'.files && s'.files[s.rows[id].Location()] == s.files[s.rows[id].Location()])
      && s'.rows.Keys == s.rows.Keys + {s.nextId} - gone
      && s.nextId in s'.rows && s'.rows[s.nextId].hash == Digest(q.content)
      && (!q.autocleanup ==> gone == {})
  {
    StoreOnlyAdds(s, q);
    var t, gone := Store(s, q), Dropped(Store(s, q), q);
    CleanupDrops(t, q);
    assert AddStep(s, q) == Cleanup(t, q);
    if q.Slotted() && q.autocleanup {
      StoredInSlot(s, q);
      NewestKept(t, SlotIds(t.rows, q.rom, q.slot), s.nextId, ClampLimit(q.limit));
    }
    forall id | id in t.rows && id !in gone
      ensures id in Remove(t, gone).rows && Remove(t, gone).rows[id] == t.rows[id]
              && t.rows[id].Location() in Remove(t, gone).files
              && Remove(t, gone).files[t.rows[id].Location()] == t.files[t.rows[id].Location()]
    {
      OthersKeepTheirBytes(t, gone, id);
    }
    hide Inv, Expired, AddOutcome, Store, Cleanup, SlotIds, AddStep;
  }

  // ---- Where the protocol falls short ----

  const SLOT := Some("auto")
  const FIRST := Upload(Some("a"), 1, "core", SLOT, "g [t1].srm", "one", false, false, 10)
  const LATE := Upload(Some("b"), 1, "core", SLOT, "g [t3].srm", "three", false, false, 10)

  const AFTER_UPLOAD := State(1, 1, map[0 := Row(1, SLOT, "core", "g [t1].srm", Digest("one"), 1)],
                              map[FIRST.Target() := "one"], map[("a", 0) := Stamp(1, false)], map[("a", 0) := "one"])

  lemma FirstUpload()
    ensures Valid(EMPTY) && AddStep(EMPTY, FIRST) == AFTER_UPLOAD && Inv(AFTER_UPLOAD)
  {
    assert SlotIds(EMPTY.rows, 1, SLOT) == {};
    assert Matching(EMPTY.rows, 1, FIRST.name, SLOT) == {};
    assert At(EMPTY.rows, FIRST.Target()) == {};
  }

  const READ := Download(Some("b"), 0, false, true)
  const REPLACE := Put(Some("a"), 0, Some("two"))
  const CONFIRM := Confirm("b", 0)

  const REPLACED_ROW := Row(1, SLOT, "core", "g [t1].srm", Digest("two"), 2)

  /** The state a late confirmation leaves: `b` is stamped current, holding "one". */
  const MISLED := State(2, 1, map[0 := REPLACED_ROW], map[FIRST.Target() := "two"],
                        map[("a", 0) := Stamp(2, false), ("b", 0) := Stamp(2, false)],
                        map[("a", 0) := "two", ("b", 0) := "one"])

  const READ_STATE := AFTER_UPLOAD.(held := map[("a", 0) := "one", ("b", 0) := "one"])

  lemma AfterRead()
    ensures Valid(AFTER_UPLOAD) && Step(AFTER_UPLOAD, READ) == READ_STATE && Valid(READ_STATE)
  {
    FirstUpload();
    ValidKept(AFTER_UPLOAD, READ);
    hide Valid, AddStep;
  }

  const WRITTEN_STATE := State(2, 1, map[0 := REPLACED_ROW], map[FIRST.Target() := "two"], READ_STATE.stamps, READ_STATE.held)

  lemma ReplacesRow()
    ensures 0 in READ_STATE.rows && WriteRow(READ_STATE, 0, "two") == WRITTEN_STATE
  {
    var w := WriteRow(READ_STATE, 0, "two");
    assert w.rows == map[0 := REPLACED_ROW] && w.files == map[FIRST.Target() := "two"];
  }

  lemma StampsOver(s: State, d: Device, e: Device, id: nat, at: int, before: Stamp, was: Content, now: Content)
    requires d != e && s.stamps == map[(d, id) := before] && s.held == map[(d, id) := was, (e, id) := was]
    ensures var t := StampAt(s, d, id, at, Some(now));
            t == s.(stamps := map[(d, id) := Stamp(at, false)], held := map[(d, id) := now, (e, id) := was])
  {
    var t := StampAt(s, d, id, at, Some(now));
    assert t.stamps == map[(d, id) := Stamp(at, false)];
    assert t.held == map[(d, id) := now, (e, id) := was];
  }

  lemma StampsWriter()
    ensures StampAt(WRITTEN_STATE, "a", 0, 2, Some("two")) == MISLED.(stamps := map[("a", 0) := Stamp(2, false)])
  {
    StampsOver(WRITTEN_STATE, "a", "b", 0, 2, Stamp(1, false), "one", "two");
    hide StampAt, REPLACED_ROW;
  }

  lemma AfterReplace()
    ensures var read := Step(AFTER_UPLOAD, READ);
            && Valid(read)
            && Step(read, REPLACE) == MISLED.(stamps := map[("a", 0) := Stamp(2, false)])
  {
    AfterRead();
    ReplacesRow();
    StampsWriter();
    hide Valid, AddStep, Deliver, Compared, WriteRow, StampAt, READ_STATE, MISLED, AFTER_UPLOAD;
    assert Step(READ_STATE, REPLACE) == StampAt(WRITTEN_STATE, "a", 0, 2, Some("two"));
  }

  /** A late confirmation: `b` is served the first content, `a` replaces it in place, and
      `b` then confirms. Its stamp reaches content it never saw, and its next upload to the
      slot is accepted over that content. */
  lemma LateConfirmationLosesUpdate()
    ensures Run(EMPTY, [Add(FIRST), READ, REPLACE, CONFIRM]) == MISLED
    ensures Valid(MISLED) && SlotIds(MISLED.rows, 1, SLOT) == {0}
    ensures !Refused(MISLED, LATE) && !Holds(MISLED, "b", 0)
  {
    FirstUpload();
    AfterReplace();
    MisledAccepts();
    hide Valid, Refused, Holds, SlotIds, AddStep;
    RunFour(EMPTY, Add(FIRST), READ, REPLACE, CONFIRM);
  }

  lemma MisledAccepts()
    ensures var replaced := MISLED.(stamps := map[("a", 0) := Stamp(2, false)]);
            Valid(replaced) && Step(replaced, CONFIRM) == MISLED
    ensures Valid(MISLED) && SlotIds(MISLED.rows, 1, SLOT) == {0}
    ensures !Refused(MISLED, LATE) && !Holds(MISLED, "b", 0)
  {
    assert SlotIds(MISLED.rows, 1, SLOT) == {0};
  }

  lemma RunFour(s: State, a: Request, b: Request, c: Request, d: Request)
    requires Valid(s) && Valid(Step(s, a)) && Valid(Step(Step(s, a), b)) && Valid(Step(Step(Step(s, a), b), c))
    ensures Run(s, [a, b, c, d]) == Step(Step(Step(Step(s, a), b), c), d)
  {
    var t := Step(Step(Step(s, a), b), c);
    ValidKept(t, d);
    hide Step, Valid;
    assert Run(Step(t, d), []) == Step(t, d);
    assert [d][1..] == [] && [c, d][1..] == [d] && [b, c, d][1..] == [c, d] && [a, b, c, d][1..] == [b, c, d];
    assert Run(t, [d]) == Run(Step(t, d), []);
    assert Run(Step(Step(s, a), b), [c, d]) == Run(t, [d]);
    assert Run(Step(s, a), [b, c, d]) == Run(Step(Step(s, a), b), [c, d]);
  }

  /** Repeating an identical slot upload within the second that tags its name finds itself
      as the duplicate, and the clean-up of the duplicate deletes the only copy. */
  lemma RetryWithinTheSecondDeletesTheSave()
    ensures Valid(AFTER_UPLOAD) && AddOutcome(AFTER_UPLOAD, FIRST) == Kept
    ensures var s := AddStep(AFTER_UPLOAD, FIRST); 0 in s.rows && s.rows[0].Location() !in s.files
  {
    FirstUpload();
    assert SlotIds(AFTER_UPLOAD.rows, 1, SLOT) == {0};
    assert Current(AFTER_UPLOAD, "a", 0);
  }
}
