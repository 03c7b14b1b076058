/** What requests do to the tables, read off the rows, stamps and files before them. */
module SaveSyncOutcomes {
  import opened Common
  import opened SaveSync
  import opened SaveSyncProofs

  // ---- The comparison ----

  /** Equal copies need nothing. With a stamp, the side that moved since wins, and two that moved
      conflict; without one the later copy wins, and copies of the same time conflict if they
      differ or one of them is unknown. */
  lemma ComparedExactly(client: Option<Digest>, clientAt: int, server: Option<Digest>, serverAt: int, lastSynced: Option<int>)
    ensures var action := CompareSaveState(client, clientAt, server, serverAt, lastSynced);
            var equal := client.Some? && client == server;
            if equal then action == NoOp
            else if lastSynced.Some? then
              && (action == UploadIt <==> serverAt <= lastSynced.value < clientAt)
              && (action == DownloadIt <==> clientAt <= lastSynced.value < serverAt)
              && (action == Conflict <==> lastSynced.value < clientAt && lastSynced.value < serverAt)
            else
              && (action == UploadIt <==> serverAt < clientAt)
              && (action == DownloadIt <==> clientAt < serverAt)
              && (action == Conflict <==> clientAt == serverAt && client != server)
  {
  }

  // ---- Uploads ----

  /** An upload is taken for a duplicate exactly when it goes to a slot without overwriting, meets
      no conflict, and some save of the slot has its content; it then costs the target path's
      bytes and changes nothing else. */
  lemma DuplicateMeans(s: State, q: Upload)
    requires Valid(s)
    ensures AddOutcome(s, q) == Kept <==>
            && AddOutcome(s, q) != Rejected409 && q.slot.Some? && q.slot.value != "" && !q.overwrite
            && exists id :: id in s.rows && s.rows[id].rom == q.rom && s.rows[id].slot == q.slot
                            && s.rows[id].hash == Digest(q.content)
    ensures AddOutcome(s, q) == Kept ==>
              AddStep(s, q) == s.(files := s.files - {Path(q.rom, q.emulator, q.name)})
  {
    if id :| id in s.rows && s.rows[id].rom == q.rom && s.rows[id].slot == q.slot && s.rows[id].hash == Digest(q.content) {
      assert id in SlotIds(s.rows, q.rom, q.slot);
    }
    assert s.files[q.Target() := q.content] - {q.Target()} == s.files - {q.Target()};
    hide Valid, Refused;
  }

  lemma RefusedChangesNothing(s: State, q: Upload)
    requires Valid(s) && AddOutcome(s, q) == Rejected409
    ensures AddStep(s, q) == s
  {
  }

  predicate Bears(r: Row, q: Upload) { r.rom == q.rom && r.name == q.name && r.slot == q.slot }

  /** An accepted upload is stored in the row of its ROM, name and slot, if there is one. */
  lemma StoredOverNamesake(s: State, q: Upload, x: nat)
    requires Valid(s) && AddOutcome(s, q).Stored? && x in s.rows && Bears(s.rows[x], q)
    ensures AddOutcome(s, q) == Stored(x)
  {
    var named := Matching(s.rows, q.rom, q.name, q.slot);
    assert x in named && SameName(s.rows[x], s.rows[Least(named)]);
    hide Refused, Duplicate;
  }

  /** Failing that, in the first row on its path, if that one has other content; else it is new. */
  lemma StoredElsewhere(s: State, q: Upload)
    requires Valid(s) && AddOutcome(s, q).Stored? && forall x | x in s.rows :: !Bears(s.rows[x], q)
    ensures forall first: nat | First(s, Path(q.rom, q.emulator, q.name), first) ::
              AddOutcome(s, q) == Stored(if s.rows[first].hash != Digest(q.content) then first else s.nextId)
    ensures (forall x | x in s.rows :: s.rows[x].Location() != Path(q.rom, q.emulator, q.name)) ==>
              AddOutcome(s, q) == Stored(s.nextId)
  {
    var named, at := Matching(s.rows, q.rom, q.name, q.slot), At(s.rows, q.Target());
    assert forall y | y in named :: Bears(s.rows[y], q);
    assert named == {};
    forall first: nat | First(s, q.Target(), first) ensures first in at && Least(at) == first {
      assert first in at;
    }
    if forall x | x in s.rows :: s.rows[x].Location() != q.Target() { assert at == {}; }
    hide Refused, Duplicate;
  }

  predicate First(s: State, p: Path, first: nat) {
    first in s.rows && s.rows[first].Location() == p && forall y | y in s.rows && s.rows[y].Location() == p :: first <= y
  }

  /** What an accepted upload without retention leaves: its row with the next timestamp, its bytes
      at its path, its device stamped at that time, and the bytes its row pointed at before gone
      exactly when no other row points there. */
  lemma StoredMeans(s: State, q: Upload)
    requires Valid(s) && AddOutcome(s, q).Stored? && !(q.autocleanup && q.slot.Some? && q.slot.value != "")
    ensures var t, id, path := AddStep(s, q), AddOutcome(s, q).id, Path(q.rom, q.emulator, q.name);
            && t.rows == s.rows[id := Row(q.rom, SlotAfter(s, q, id), q.emulator, q.name, Digest(q.content), s.clock + 1)]
            && path in t.files && t.files[path] == q.content
            && (forall p | p != path && p in t.files :: p in s.files && t.files[p] == s.files[p])
            && (forall p | p != path && p in s.files :: p !in t.files <==>
                  && id in s.rows && s.rows[id].Location() == p
                  && forall x | x in s.rows && x != id :: s.rows[x].Location() != p)
            && t.stamps == (if q.device.Some? then s.stamps[(q.device.value, id) := Stamp(s.clock + 1, false)] else s.stamps)
  {
    var id := AddOutcome(s, q).id;
    NewRowLocation(s, q);
    assert AddStep(s, q) == Store(s, q);
    RowStored(s, q);
    if id in s.rows {
      var before := s.rows[id].Location();
      assert At(s.rows, before) - {id} == {} <==> forall x | x in s.rows && x != id :: s.rows[x].Location() != before by {
        if At(s.rows, before) - {id} == {} {
          forall x | x in s.rows && x != id ensures s.rows[x].Location() != before {
            assert x !in At(s.rows, before) - {id};
          }
        }
      }
      OverwritesItsRow(s, q);
    } else {
      NewOverwritesNone(s, q);
    }
    hide Valid, Refused, Duplicate, Overwritten, NewRow, At;
  }

  /** An upload that names no slot leaves a row in the slot it has. */
  function SlotAfter(s: State, q: Upload, id: nat): Option<string> {
    if q.slot.Some? || id !in s.rows then q.slot else s.rows[id].slot
  }

  lemma RowStored(s: State, q: Upload)
    requires Valid(s)
    ensures var id := StoredId(s, q);
            NewRow(s, q) == Row(q.rom, SlotAfter(s, q, id), q.emulator, q.name, Digest(q.content), s.clock + 1)
  {
    if Overwritten(s, q).Some? {
      var o := Overwritten(s, q).value;
      assert s.rows[o].rom == q.rom && s.rows[o].name == q.name;
    } else {
      assert s.nextId !in s.rows;
    }
    hide Overwritten;
  }

  lemma OverwritesItsRow(s: State, q: Upload)
    requires Valid(s) && StoredId(s, q) in s.rows
    ensures Overwritten(s, q) == Some(StoredId(s, q))
  {
    assert s.nextId !in s.rows;
    hide Overwritten;
  }

  lemma NewOverwritesNone(s: State, q: Upload)
    requires StoredId(s, q) !in s.rows
    ensures Overwritten(s, q) == None
  {
    hide Overwritten;
  }

  // ---- Flags and stamps ----

  /** Changing the tracking flag changes the flag of the device's stamp, creates one only to
      untrack, and leaves every other stamp, the rows and the files. */
  lemma TrackMeans(s: State, d: Device, id: nat, untracked: bool)
    requires Valid(s) && id in s.rows
    ensures var t := Step(s, Track(d, id, untracked));
            && t.rows == s.rows && t.files == s.files
            && ((d, id) in s.stamps ==> (d, id) in t.stamps && t.stamps[(d, id)] == Stamp(s.stamps[(d, id)].at, untracked))
            && ((d, id) !in s.stamps ==> ((d, id) in t.stamps <==> untracked)
                                         && (untracked ==> t.stamps[(d, id)] == Stamp(s.clock + 1, true)))
            && t.stamps - {(d, id)} == s.stamps - {(d, id)}
  {
  }

  /** Delivering a save stamps the device then; the push-pull task does so even when there was
      nothing to move, and the watcher does not. */
  lemma NothingToMove(s: State, d: Device, id: nat, content: Content, mtime: int, transferred: bool)
    requires Valid(s) && id in s.rows && s.rows[id].slot.Some? && Compared(s, d, id, content, mtime) == NoOp
    ensures Step(s, Incoming(d, id, content, mtime)) == s
    ensures var t := Step(s, Remote(d, id, content, mtime, transferred));
            && t.rows == s.rows && t.files == s.files
            && t.stamps == s.stamps[(d, id) := Stamp(s.clock + 1, false)]
  {
  }

  /** A delivered update replaces the row's bytes and digest, with its device stamped after it. */
  lemma DeliveryMeans(s: State, d: Device, id: nat, content: Content, mtime: int)
    requires Valid(s) && id in s.rows && s.rows[id].slot.Some? && Compared(s, d, id, content, mtime) == UploadIt
    ensures var t := Step(s, Incoming(d, id, content, mtime));
            && t.rows == s.rows[id := s.rows[id].(hash := Digest(content), updatedAt := s.clock + 1)]
            && t.files == s.files[s.rows[id].Location() := content]
            && t.stamps == s.stamps[(d, id) := Stamp(s.clock + 2, false)]
  {
  }

  /** A conflict is left to the user: neither task changes anything. */
  lemma ConflictIsLeftAlone(s: State, d: Device, id: nat, content: Content, mtime: int, transferred: bool)
    requires Valid(s) && id in s.rows && Compared(s, d, id, content, mtime) == Conflict
    ensures Step(s, Incoming(d, id, content, mtime)) == s == Step(s, Remote(d, id, content, mtime, transferred))
  {
  }

  /** Toggling visibility moves the row's timestamp and nothing else, so every stamp falls behind it. */
  lemma VisibilityMeans(s: State, id: nat)
    requires Valid(s) && id in s.rows
    ensures var t := Step(s, Visibility(id));
            && t.rows == s.rows[id := s.rows[id].(updatedAt := s.clock + 1)]
            && t.files == s.files && t.stamps == s.stamps
            && forall d :: !Current(t, d, id)
  {
  }
}
