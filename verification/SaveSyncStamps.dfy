/** What a stamp vouches for, on its own: whatever becomes of the files, a device's stamp reaches
    a save only if the device holds its content, exactly as long as the requests are truthful. */
module SaveSyncStamps {
  import opened Common
  import opened SaveSync
  import opened SaveSyncProofs

  /** The bytes at the row's path, if there are any, are what the row says. */
  predicate Matches(s: State, id: nat)
    requires id in s.rows
  {
    s.rows[id].Location() in s.files ==> Digest(s.files[s.rows[id].Location()]) == s.rows[id].hash
  }

  /** The row whose bytes a watcher or push-pull request sends to a device. */
  function Delivered(s: State, r: Request): (id: Option<nat>)
    ensures id.Some? ==> id.value in s.rows
  {
    match r
    case Incoming(d, id, content, mtime) =>
      if id in s.rows && s.rows[id].slot.Some? && Compared(s, d, id, content, mtime) == DownloadIt then Some(id) else None
    case Remote(d, id, content, mtime, transferred) =>
      if id in s.rows && s.rows[id].slot.Some? && Compared(s, d, id, content, mtime) == DownloadIt && transferred then Some(id)
      else None
    case Push(d, id, transferred) =>
      if id in s.rows && s.rows[id].slot.Some? && !((d, id) in s.stamps && s.stamps[(d, id)].untracked) && transferred then
        Some(id)
      else None
    case _ => None
  }

  /** A device that claims a save without exchanging bytes holds its content, and one that is
      stamped for bytes it is sent, or was stamped already, is sent what the row says. */
  predicate Truthful(s: State, r: Request) {
    match r
    case Confirm(d, id) => id in s.rows ==> Holds(s, d, id)
    case Put(w, id, file) => id in s.rows && w.Some? && file.None? ==> Holds(s, w.value, id)
    case Track(d, id, untracked) => id in s.rows && untracked && (d, id) !in s.stamps ==> Holds(s, d, id)
    case Download(reader, id, optimistic, owner) =>
      id in s.rows && reader.Some? && ((optimistic && owner) || Current(s, reader.value, id)) ==> Matches(s, id)
    case _ => Delivered(s, r).Some? ==> Matches(s, Delivered(s, r).value)
  }

  // ---- Building blocks ----

  lemma StampSound(s: State, d: Device, id: nat, at: int, content: Option<Content>)
    requires Sound(s) && id in s.rows && s.rows[id].updatedAt <= at
    ensures Sound(StampAt(s, d, id, at, content)) <==>
            (if content.Some? then Digest(content.value) == s.rows[id].hash else Holds(s, d, id))
  {
    var t := StampAt(s, d, id, at, content);
    assert Current(t, d, id);
    if Holds(t, d, id) {
      forall e, x | x in t.rows && Current(t, e, x) ensures Holds(t, e, x) {
        if (e, x) != (d, id) { assert Current(s, e, x); }
      }
    }
  }

  /** A row with a newer timestamp is current for nobody, and the other rows are as they were. */
  lemma NewerRowSound(s: State, t: State, id: nat)
    requires Bounded(s) && Sound(s) && id in t.rows && t.rows[id].updatedAt > s.clock
    requires t.stamps == s.stamps && t.held == s.held
    requires forall x | x in t.rows && x != id :: x in s.rows && t.rows[x] == s.rows[x]
    ensures Sound(t)
  {
    forall e, x | x in t.rows && Current(t, e, x) ensures Holds(t, e, x) {
      assert (e, x) in s.stamps && s.stamps[(e, x)].at <= s.clock;
      assert Current(s, e, x);
    }
  }

  lemma RemoveSound(s: State, ids: set<nat>)
    requires Sound(s)
    ensures Sound(Remove(s, ids))
  {
    var t := Remove(s, ids);
    forall e, x | x in t.rows && Current(t, e, x) ensures Holds(t, e, x) { assert Current(s, e, x); }
  }

  /** The clock and the files alone decide nothing. */
  lemma SameStampsSound(s: State, t: State)
    requires Sound(s) && t.rows == s.rows && t.stamps == s.stamps && t.held == s.held
    ensures Sound(t)
  {
    forall e, x | x in t.rows && Current(t, e, x) ensures Holds(t, e, x) { assert Current(s, e, x); }
  }

  // ---- Each request ----

  /** No upload spoils a stamp, whichever path it goes to. */
  lemma UploadSound(s: State, q: Upload)
    requires Valid(s) && Sound(s)
    ensures Sound(AddStep(s, q))
  {
    var outcome := AddOutcome(s, q);
    if outcome.Kept? {
      SameStampsSound(s, AddStep(s, q));
    } else if outcome.Stored? {
      StoreSound(s, q);
      CleanupDrops(Store(s, q), q);
      RemoveSound(Store(s, q), Dropped(Store(s, q), q));
    }
    hide Valid, Sound, AddOutcome, Store, Cleanup, Dropped, Remove;
  }

  lemma StoreSound(s: State, q: Upload)
    requires Valid(s) && Sound(s)
    ensures Sound(Store(s, q))
  {
    var w, id := Written(s, q), StoredId(s, q);
    NewRowLocation(s, q);
    NewerRowSound(s, w, id);
    if q.device.Some? { StampSound(w, q.device.value, id, s.clock + 1, Some(q.content)); }
    hide Sound, Valid;
  }

  lemma DownloadSoundExactly(s: State, r: Request)
    requires Valid(s) && Sound(s) && r.Download?
    ensures Sound(Step(s, r)) <==> Truthful(s, r)
  {
    var t, id := Step(s, r), r.id;
    if id in s.rows && r.reader.Some? && s.rows[id].Location() in s.files {
      var d, served := r.reader.value, s.files[s.rows[id].Location()];
      if r.optimistic && r.owner {
        StampSound(s, d, id, s.rows[id].updatedAt, Some(served));
      } else if Current(s, d, id) && !Matches(s, id) {
        assert Current(t, d, id) && !Holds(t, d, id);
      } else {
        forall e, x | x in t.rows && Current(t, e, x) ensures Holds(t, e, x) { assert Current(s, e, x); }
      }
    }
  }

  lemma PutSoundExactly(s: State, w: Option<Device>, id: nat, file: Option<Content>)
    requires Valid(s) && Sound(s)
    ensures Sound(Step(s, Put(w, id, file))) <==> Truthful(s, Put(w, id, file))
  {
    if id in s.rows {
      var t := if file.Some? then WriteRow(s, id, file.value) else s;
      if file.Some? { NewerRowSound(s, t, id); }
      if w.Some? { StampSound(t, w.value, id, t.rows[id].updatedAt, file); }
    }
  }

  lemma TrackSoundExactly(s: State, d: Device, id: nat, untracked: bool)
    requires Valid(s) && Sound(s)
    ensures Sound(Step(s, Track(d, id, untracked))) <==> Truthful(s, Track(d, id, untracked))
  {
    var t := Step(s, Track(d, id, untracked));
    if id in s.rows && (untracked || (d, id) in s.stamps) {
      if (d, id) !in s.stamps { assert Current(t, d, id); }
      if Truthful(s, Track(d, id, untracked)) {
        forall e, x | x in t.rows && Current(t, e, x) ensures Holds(t, e, x) {
          if (e, x) != (d, id) || (d, id) in s.stamps { assert Current(s, e, x); }
        }
      }
    }
  }

  lemma VisibilitySound(s: State, id: nat)
    requires Valid(s) && Sound(s)
    ensures Sound(Step(s, Visibility(id)))
  {
    if id in s.rows { NewerRowSound(s, Step(s, Visibility(id)), id); }
  }

  lemma DeliverSoundExactly(s: State, d: Device, id: nat)
    requires Valid(s) && Sound(s) && id in s.rows
    ensures Sound(Deliver(s, d, id)) <==> Matches(s, id)
  {
    var p, ticked := s.rows[id].Location(), s.(clock := s.clock + 1);
    if p in s.files {
      SameStampsSound(s, ticked);
      StampSound(ticked, d, id, s.clock + 1, Some(s.files[p]));
    }
  }

  lemma OverwriteSound(s: State, d: Device, id: nat, content: Content)
    requires Valid(s) && Sound(s) && id in s.rows
    ensures Sound(StampNow(WriteRow(s, id, content), d, id, Some(content)))
  {
    var w := WriteRow(s, id, content);
    NewerRowSound(s, w, id);
    SameStampsSound(w, w.(clock := w.clock + 1));
    StampSound(w.(clock := w.clock + 1), d, id, w.clock + 1, Some(content));
  }

  /** The push-pull no-op stamps equal content, or a device already current. */
  lemma NoOpSound(s: State, d: Device, id: nat, content: Content, mtime: int)
    requires Valid(s) && Sound(s) && id in s.rows && Compared(s, d, id, content, mtime) == NoOp
    ensures Sound(StampNow(s, d, id, Seen(s, id, content)))
  {
    if Digest(content) != s.rows[id].hash { assert Current(s, d, id); }
    var ticked := s.(clock := s.clock + 1);
    SameStampsSound(s, ticked);
    StampSound(ticked, d, id, s.clock + 1, Seen(s, id, content));
  }

  lemma ExchangeSoundExactly(s: State, r: Request)
    requires Valid(s) && Sound(s) && (r.Incoming? || r.Remote? || r.Push?)
    ensures Sound(Step(s, r)) <==> Truthful(s, r)
  {
    hide Valid, Sound, Deliver, StampNow, WriteRow, Compared, Matches;
    match r
    case Incoming(d, id, content, _) =>
      if id in s.rows { OverwriteSound(s, d, id, content); DeliverSoundExactly(s, d, id); }
    case Remote(d, id, content, mtime, _) =>
      if id in s.rows {
        OverwriteSound(s, d, id, content);
        DeliverSoundExactly(s, d, id);
        if Compared(s, d, id, content, mtime) == NoOp { NoOpSound(s, d, id, content, mtime); }
      }
    case Push(d, id, _) => if id in s.rows { DeliverSoundExactly(s, d, id); }
  }

  /** From a state in which every stamp vouches for content its device holds, a request keeps
      that exactly when it is truthful. */
  lemma StepVouchesExactly(s: State, r: Request)
    requires Valid(s) && Sound(s)
    ensures Sound(Step(s, r)) <==> Truthful(s, r)
  {
    hide Valid, Sound, AddStep, Deliver, StampNow, WriteRow, Compared, Matches, Delivered;
    match r
    case Add(q) =>
      UploadSound(s, q);
      NothingDelivered(s, r);
    case Download(_, _, _, _) => DownloadSoundExactly(s, r);
    case Confirm(d, id) => if id in s.rows { StampSound(s, d, id, s.rows[id].updatedAt, None); }
    case Put(w, id, file) => PutSoundExactly(s, w, id, file);
    case Visibility(id) =>
      VisibilitySound(s, id);
      NothingDelivered(s, r);
    case Delete(id) =>
      if id in s.rows { RemoveSound(s, {id}); }
      NothingDelivered(s, r);
    case Track(d, id, untracked) => TrackSoundExactly(s, d, id, untracked);
    case _ => ExchangeSoundExactly(s, r);
  }

  lemma NothingDelivered(s: State, r: Request)
    requires !r.Incoming? && !r.Remote? && !r.Push?
    ensures Delivered(s, r) == None
  {
  }

  // ---- Whole runs ----

  ghost predicate AlwaysSound(s: State, rs: seq<Request>)
    requires Valid(s)
    decreases |rs|
  {
    Sound(s) && (rs == [] || (ValidKept(s, rs[0]); AlwaysSound(Step(s, rs[0]), rs[1..])))
  }

  ghost predicate AlwaysTruthful(s: State, rs: seq<Request>)
    requires Valid(s)
    decreases |rs|
  {
    rs == [] || (ValidKept(s, rs[0]); Truthful(s, rs[0]) && AlwaysTruthful(Step(s, rs[0]), rs[1..]))
  }

  lemma {:induction false} VouchesFrom(s: State, rs: seq<Request>)
    requires Valid(s) && Sound(s)
    ensures AlwaysSound(s, rs) <==> AlwaysTruthful(s, rs)
    ensures AlwaysTruthful(s, rs) ==> Sound(Run(s, rs))
    decreases |rs|
  {
    if rs != [] {
      ValidKept(s, rs[0]);
      StepVouchesExactly(s, rs[0]);
      if Sound(Step(s, rs[0])) { VouchesFrom(Step(s, rs[0]), rs[1..]); }
    }
    hide Valid, Sound, Step, Truthful;
  }

  /** From an empty server, every stamp vouches for content its device holds at every moment of
      a run if and only if every request of it is truthful, whatever becomes of the files. */
  lemma StampsVouchExactly(rs: seq<Request>)
    ensures Valid(EMPTY) && (AlwaysSound(EMPTY, rs) <==> AlwaysTruthful(EMPTY, rs))
  {
    VouchesFrom(EMPTY, rs);
  }

  /** No lost update: after any truthful run, a slot upload without `overwrite` that names a
      device is accepted only into an empty slot or from a device holding the newest save. */
  lemma NoLostUpdate(rs: seq<Request>, q: Upload)
    requires AlwaysTruthful(EMPTY, rs)
    requires q.Slotted() && q.device.Some? && !q.overwrite
    ensures
      var s := Run(EMPTY, rs);
      var ids := SlotIds(s.rows, q.rom, q.slot);
      !Refused(s, q) ==> ids == {} || Holds(s, q.device.value, NewestOf(s, ids))
  {
    VouchesFrom(EMPTY, rs);
    var s := Run(EMPTY, rs);
    var ids := SlotIds(s.rows, q.rom, q.slot);
    if !Refused(s, q) && ids != {} {
      assert Current(s, q.device.value, NewestOf(s, ids));
    }
  }

  lemma {:induction false} InvIsSound(s: State, rs: seq<Request>)
    requires Valid(s) && AlwaysInv(s, rs)
    ensures AlwaysSound(s, rs)
    decreases |rs|
  {
    if rs != [] {
      ValidKept(s, rs[0]);
      InvIsSound(Step(s, rs[0]), rs[1..]);
    }
    hide Valid, Agree, Apart, Sound, Step;
  }

  /** Clean runs are truthful. */
  lemma CleanIsTruthful(rs: seq<Request>)
    requires CleanRun(EMPTY, rs)
    ensures AlwaysTruthful(EMPTY, rs)
  {
    RunKeepsExactly(rs);
    InvIsSound(EMPTY, rs);
    StampsVouchExactly(rs);
  }

  // ---- Who is answered with a conflict ----

  /** An upload without a slot is refused exactly when the save of that ROM, name and slot has
      moved on since the uploading device was stamped on it. */
  lemma UnslottedRefusedExactly(s: State, q: Upload, d: Device)
    requires Valid(s) && q.device == Some(d) && !q.overwrite && (q.slot == None || q.slot == Some(""))
    ensures AddOutcome(s, q) == Rejected409 <==>
            exists id :: id in s.rows && s.rows[id].rom == q.rom && s.rows[id].name == q.name && s.rows[id].slot == q.slot
                         && (d, id) in s.stamps && s.stamps[(d, id)].at < s.rows[id].updatedAt
  {
    var ids := Matching(s.rows, q.rom, q.name, q.slot);
    if id :| id in s.rows && s.rows[id].rom == q.rom && s.rows[id].name == q.name && s.rows[id].slot == q.slot
             && (d, id) in s.stamps && s.stamps[(d, id)].at < s.rows[id].updatedAt {
      assert id in ids;
      SameNameSameRow(s, q, id, Named(s, q).value);
    }
  }

  lemma SameNameSameRow(s: State, q: Upload, x: nat, y: nat)
    requires Valid(s) && x in Matching(s.rows, q.rom, q.name, q.slot) && y in Matching(s.rows, q.rom, q.name, q.slot)
    ensures x == y
  {
    assert SameName(s.rows[x], s.rows[y]);
  }

  /** An upload to a slot is refused exactly when the slot's newest save has no stamp of the
      uploading device that reaches it. */
  lemma SlottedRefusedExactly(s: State, q: Upload, d: Device)
    requires Valid(s) && q.device == Some(d) && !q.overwrite && q.slot.Some? && q.slot.value != ""
    ensures AddOutcome(s, q) == Rejected409 <==>
            exists id :: id in s.rows && s.rows[id].rom == q.rom && s.rows[id].slot == q.slot
                         && (forall x | x in s.rows && s.rows[x].rom == q.rom && s.rows[x].slot == q.slot ::
                               s.rows[x].updatedAt <= s.rows[id].updatedAt)
                         && ((d, id) in s.stamps ==> s.stamps[(d, id)].at < s.rows[id].updatedAt)
  {
    var ids := SlotIds(s.rows, q.rom, q.slot);
    if ids != {} {
      var newest := NewestOf(s, ids);
      NewestUnique(s, ids);
      assert newest in ids && forall x | x in ids :: s.rows[x].updatedAt <= s.rows[newest].updatedAt;
      if id :| id in s.rows && s.rows[id].rom == q.rom && s.rows[id].slot == q.slot
               && (forall x | x in s.rows && s.rows[x].rom == q.rom && s.rows[x].slot == q.slot ::
                     s.rows[x].updatedAt <= s.rows[id].updatedAt)
               && ((d, id) in s.stamps ==> s.stamps[(d, id)].at < s.rows[id].updatedAt) {
        assert IsNewest(s, ids, id);
        assert id == newest;
      }
    }
  }

  /** Overwriting, and uploads that name no device, meet no conflict. */
  lemma ForcedIsAccepted(s: State, q: Upload)
    requires Valid(s) && (q.overwrite || q.device.None?)
    ensures AddOutcome(s, q) != Rejected409
  {
  }

  /** After any truthful run, an upload without a slot is accepted over an existing save only
      from a device that holds its content or was never stamped on it. */
  lemma NoLostUnslottedUpdate(rs: seq<Request>, q: Upload, d: Device, id: nat)
    requires AlwaysTruthful(EMPTY, rs)
    requires q.device == Some(d) && !q.overwrite && (q.slot == None || q.slot == Some(""))
    requires var s := Run(EMPTY, rs);
             id in s.rows && s.rows[id].rom == q.rom && s.rows[id].name == q.name && s.rows[id].slot == q.slot
             && AddOutcome(s, q) != Rejected409
    ensures Holds(Run(EMPTY, rs), d, id) || (d, id) !in Run(EMPTY, rs).stamps
  {
    VouchesFrom(EMPTY, rs);
    var s := Run(EMPTY, rs);
    UnslottedRefusedExactly(s, q, d);
    if (d, id) in s.stamps { assert Current(s, d, id); }
  }
}
