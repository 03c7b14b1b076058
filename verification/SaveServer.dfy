/** The save endpoints and the two delivery tasks as they run: one object whose tables,
    files and clock the requests change step by step, each proved against `SaveSync.Step`. */
module SaveServer {
  import opened Common
  import opened SaveSync
  import opened SaveSyncProofs

  class Server {
    var clock: int
    var nextId: nat
    var rows: map<nat, Row>
    var files: map<Path, Content>
    var stamps: map<(Device, nat), Stamp>
    ghost var held: map<(Device, nat), Content>

    ghost function Model(): State
      reads this
    {
      State(clock, nextId, rows, files, stamps, held)
    }

    constructor ()
      ensures Model() == EMPTY && Inv(Model())
    {
      clock, nextId, rows, files, stamps, held := 0, 0, map[], map[], map[], map[];
    }

    method UpsertSync(device: Device, id: nat, at: int)
      modifies this`stamps
      ensures stamps == old(stamps)[(device, id) := Stamp(at, false)]
    {
      stamps := stamps[(device, id) := Stamp(at, false)];
    }

    /** Rows of a slot ordered by `updated_at`, newest first. */
    method SlotSaves(rom: nat, slot: Option<string>) returns (ids: seq<nat>)
      requires Valid(Model())
      ensures NewestFirst(Model(), ids) && Members(ids) == SlotIds(rows, rom, slot)
    {
      ids := [];
      var left := SlotIds(rows, rom, slot);
      while left != {}
        invariant left <= SlotIds(rows, rom, slot)
        invariant NewestFirst(Model(), ids) && Members(ids) == SlotIds(rows, rom, slot) - left
        invariant forall i, x | 0 <= i < |ids| && x in left :: rows[ids[i]].updatedAt > rows[x].updatedAt
        decreases left
      {
        NewestExists(Model(), left);
        var n :| n in left && forall x | x in left :: rows[x].updatedAt <= rows[n].updatedAt;
        forall x | x in left && x != n ensures rows[n].updatedAt > rows[x].updatedAt {
          assert !SameTime(rows[n], rows[x]);
        }
        assert Members(ids + [n]) == Members(ids) + {n};
        ids, left := ids + [n], left - {n};
      }
    }

    /** The 409 check of an upload. */
    method CheckConflict(q: Upload, named: Option<nat>) returns (refused: bool)
      requires Valid(Model()) && named == Named(Model(), q)
      ensures refused == Refused(Model(), q)
    {
      refused := false;
      if q.device.Some? && q.Slotted() && !q.overwrite {
        var slotSaves := SlotSaves(q.rom, q.slot);
        if slotSaves != [] {
          var latest := slotSaves[0];
          refused := (q.device.value, latest) !in stamps || stamps[(q.device.value, latest)].at < rows[latest].updatedAt;
          LeaderIsNewest(slotSaves, q);
        }
      } else if q.device.Some? && named.Some? && !q.overwrite {
        refused := (q.device.value, named.value) in stamps
          && stamps[(q.device.value, named.value)].at < rows[named.value].updatedAt;
      }
    }

    lemma LeaderIsNewest(ids: seq<nat>, q: Upload)
      requires Valid(Model()) && NewestFirst(Model(), ids) && ids != []
      requires Members(ids) == SlotIds(rows, q.rom, q.slot)
      ensures SlotIds(rows, q.rom, q.slot) != {} && NewestOf(Model(), SlotIds(rows, q.rom, q.slot)) == ids[0]
    {
      var all := SlotIds(rows, q.rom, q.slot);
      assert ids[0] in Members(ids);
      forall x | x in all ensures rows[x].updatedAt <= rows[ids[0]].updatedAt {
        assert x in Members(ids);
      }
      NewestUnique(Model(), all);
      assert IsNewest(Model(), all, ids[0]);
    }

    method FindNamed(q: Upload) returns (named: Option<nat>)
      ensures named == Named(Model(), q)
    {
      var ids := Matching(rows, q.rom, q.name, q.slot);
      named := if ids == {} then None else Some(Least(ids));
    }

    method AddSave(q: Upload) returns (out: Outcome)
      requires Valid(Model())
      modifies this
      ensures Valid(Model())
      ensures Model() == AddStep(old(Model()), q)
      ensures out == AddOutcome(old(Model()), q)
    {
      AddValid(Model(), q);
      var named := FindNamed(q);
      var refused := CheckConflict(q, named);
      if refused {
        return Rejected409;
      }

      files := files[q.Target() := q.content];

      if q.Slotted() && !q.overwrite {
        var existing := set id | id in rows && rows[id].rom == q.rom && rows[id].slot == q.slot
                                 && rows[id].hash == Digest(q.content);
        assert Duplicate(old(Model()), q) <==> existing != {} by {
          if Duplicate(old(Model()), q) {
            var id :| id in rows && id in SlotIds(rows, q.rom, q.slot) && rows[id].hash == Digest(q.content);
            assert id in existing;
          }
          if existing != {} {
            var id :| id in existing;
            assert id in SlotIds(rows, q.rom, q.slot);
          }
        }
        if existing != {} {
          files := files - {q.Target()};
          return Kept;
        }
      }

      var id := StoreUpload(q, named, old(Model()));
      if q.Slotted() && q.autocleanup {
        WrittenValid(old(Model()), q);
        AutoCleanup(q.rom, q.slot, ClampLimit(q.limit));
      }
      out := Stored(id);
    }

    /** Update the row being overwritten and drop the bytes it leaves, or insert a new row;
        then stamp the uploading device. The new bytes are already in place. */
    method StoreUpload(q: Upload, named: Option<nat>, ghost before: State) returns (id: nat)
      requires Valid(before) && named == Named(before, q)
      requires Model() == before.(files := before.files[q.Target() := q.content])
      modifies this
      ensures Model() == Store(before, q) && id == StoredId(before, q)
    {
      var target := named;
      if named.None? {
        var ids := At(rows, q.Target());
        if ids != {} && rows[Least(ids)].hash != Digest(q.content) {
          target := Some(Least(ids));
        }
      }
      assert target == Overwritten(before, q);
      if target.Some? {
        id := target.value;
        UpdateUploaded(q, id, before);
      } else {
        id := InsertUploaded(q, before);
      }
      hide Written, Overwritten, Valid;
      if q.device.Some? {
        UpsertSync(q.device.value, id, rows[id].updatedAt);
        held := held[(q.device.value, id) := q.content];
      }
    }

    method InsertUploaded(q: Upload, ghost before: State) returns (id: nat)
      requires Overwritten(before, q).None?
      requires Model() == before.(files := before.files[q.Target() := q.content])
      modifies this`clock, this`nextId, this`rows
      ensures Model() == Written(before, q) && id == StoredId(before, q)
      ensures id in rows && rows[id].updatedAt == clock == before.clock + 1
    {
      clock := clock + 1;
      id := nextId;
      nextId := nextId + 1;
      rows := rows[id := Row(q.rom, q.slot, q.emulator, q.name, Digest(q.content), clock)];
      assert files - {} == files;
    }

    method UpdateUploaded(q: Upload, id: nat, ghost before: State)
      requires Overwritten(before, q) == Some(id)
      requires Model() == before.(files := before.files[q.Target() := q.content])
      modifies this`clock, this`rows, this`files
      ensures Model() == Written(before, q)
      ensures id in rows && rows[id].updatedAt == clock == before.clock + 1
    {
      var stale := rows[id].Location();
      clock := clock + 1;
      var updated := rows[id].(emulator := q.emulator, hash := Digest(q.content), updatedAt := clock);
      if q.slot.Some? {
        updated := updated.(slot := q.slot);
      }
      rows := rows[id := updated];
      var stillReferenced := exists other :: other in rows && other != id && rows[other].Location() == stale;
      StillReferenced(before.rows, rows, id, stale);
      if stale != updated.Location() && !stillReferenced {
        files := files - {stale};
      }
    }

    static lemma StillReferenced(before: map<nat, Row>, after: map<nat, Row>, id: nat, stale: Path)
      requires id in before && after.Keys == before.Keys
      requires forall other | other in before && other != id :: after[other] == before[other]
      ensures (exists other :: other in after && other != id && after[other].Location() == stale) <==>
              At(before, stale) - {id} != {}
    {
      if other :| other in after && other != id && after[other].Location() == stale {
        assert other in At(before, stale) - {id};
      }
      if At(before, stale) - {id} != {} {
        var other :| other in At(before, stale) - {id};
        assert other in after && after[other].Location() == stale;
      }
    }

    /** Delete the rows past the limit one by one, each with its file. */
    method AutoCleanup(rom: nat, slot: Option<string>, limit: nat)
      requires Valid(Model()) && limit >= 1
      modifies this`rows, this`files, this`stamps
      ensures Model() == Remove(old(Model()), Expired(old(Model()), SlotIds(old(rows), rom, slot), limit))
    {
      ghost var before := Model();
      var slotSaves := SlotSaves(rom, slot);
      ExpiredIsTail(before, slotSaves, limit);
      if |slotSaves| <= limit {
        assert Expired(before, SlotIds(before.rows, rom, slot), limit) == {};
        RemoveNothing(before);
        return;
      }
      var i := limit;
      RemoveNothing(before);
      assert Members(slotSaves[limit..limit]) == {};
      while i < |slotSaves|
        invariant limit <= i <= |slotSaves|
        invariant Model() == Remove(before, Members(slotSaves[limit..i]))
      {
        var id := slotSaves[i];
        assert slotSaves[limit..i + 1] == slotSaves[limit..i] + [id];
        assert Members(slotSaves[limit..i + 1]) == Members(slotSaves[limit..i]) + {id};
        assert id !in slotSaves[limit..i];
        RemoveOneMore(before, Members(slotSaves[limit..i]), id);
        DeleteRow(id);
        i := i + 1;
      }
      assert slotSaves[limit..i] == slotSaves[limit..];
    }

    static lemma RemoveNothing(s: State)
      ensures Remove(s, {}) == s
    {
      assert Locations(s.rows, {}) == {};
    }

    static lemma RemoveOneMore(s: State, ids: set<nat>, id: nat)
      requires id in s.rows && id !in ids
      ensures Remove(s, ids + {id}) == Remove(Remove(s, ids), {id})
    {
      var gone := Remove(s, ids);
      assert Locations(s.rows, ids + {id}) == Locations(s.rows, ids) + {s.rows[id].Location()};
      LocationOf(gone.rows, id);
      assert s.rows - (ids + {id}) == gone.rows - {id};
    }

    static lemma LocationOf(rows: map<nat, Row>, id: nat)
      requires id in rows
      ensures Locations(rows, {id}) == {rows[id].Location()}
    {
    }

    method DeleteRow(id: nat)
      requires id in rows
      modifies this`rows, this`files, this`stamps
      ensures Model() == Remove(old(Model()), {id})
    {
      LocationOf(rows, id);
      files := files - {rows[id].Location()};
      rows := rows - {id};
      stamps := map k | k in stamps && k.1 != id :: stamps[k];
    }

    method DownloadSave(reader: Option<Device>, id: nat, optimistic: bool, owner: bool) returns (bytes: Option<Content>)
      requires Valid(Model())
      modifies this`stamps, this`held
      ensures Valid(Model())
      ensures Model() == Step(old(Model()), Download(reader, id, optimistic, owner))
      ensures bytes == if id in rows && rows[id].Location() in files then Some(files[rows[id].Location()]) else None
    {
      ValidKept(Model(), Download(reader, id, optimistic, owner));
      if id !in rows || rows[id].Location() !in files {
        return None;
      }
      bytes := Some(files[rows[id].Location()]);
      if reader.Some? {
        held := held[(reader.value, id) := bytes.value];
        if optimistic && owner {
          UpsertSync(reader.value, id, rows[id].updatedAt);
        }
      }
    }

    method ConfirmDownload(device: Device, id: nat) returns (found: bool)
      requires Valid(Model())
      modifies this`stamps
      ensures Valid(Model())
      ensures Model() == Step(old(Model()), Confirm(device, id)) && found == (id in rows)
    {
      ValidKept(Model(), Confirm(device, id));
      found := id in rows;
      if found {
        UpsertSync(device, id, rows[id].updatedAt);
      }
    }

    method UpdateSave(writer: Option<Device>, id: nat, file: Option<Content>) returns (found: bool)
      requires Valid(Model())
      modifies this
      ensures Valid(Model())
      ensures Model() == Step(old(Model()), Put(writer, id, file)) && found == (id in old(rows))
    {
      ValidKept(Model(), Put(writer, id, file));
      found := id in rows;
      if !found {
        return;
      }
      if file.Some? {
        Overwrite(id, file.value);
      }
      if writer.Some? {
        UpsertSync(writer.value, id, rows[id].updatedAt);
        if file.Some? {
          held := held[(writer.value, id) := file.value];
        }
      }
    }

    method UpdateSaveVisibility(id: nat) returns (found: bool)
      requires Valid(Model())
      modifies this`clock, this`rows
      ensures Valid(Model())
      ensures Model() == Step(old(Model()), Visibility(id)) && found == (id in old(rows))
    {
      ValidKept(Model(), Visibility(id));
      found := id in rows;
      if found {
        clock := clock + 1;
        rows := rows[id := rows[id].(updatedAt := clock)];
      }
    }

    /** Delete saves in order, stopping at the first id that is not there; those before it
        stay deleted. */
    method DeleteSaves(ids: seq<nat>) returns (deleted: nat)
      requires Valid(Model())
      modifies this`rows, this`files, this`stamps
      ensures Valid(Model()) && deleted <= |ids|
      ensures Model() == Run(old(Model()), Deletions(ids[..deleted]))
      ensures deleted < |ids| ==> ids[deleted] !in rows
    {
      deleted := 0;
      ghost var before := Model();
      hide Valid, Step;
      while deleted < |ids|
        invariant deleted <= |ids| && Valid(Model())
        invariant Model() == Run(before, Deletions(ids[..deleted]))
      {
        var id := ids[deleted];
        if id !in rows {
          return;
        }
        assert Deletions(ids[..deleted + 1]) == Deletions(ids[..deleted]) + [Delete(id)];
        RunSnoc(before, Deletions(ids[..deleted]), Delete(id));
        DeleteOne(id);
        deleted := deleted + 1;
      }
    }

    method DeleteOne(id: nat)
      requires Valid(Model()) && id in rows
      modifies this`rows, this`files, this`stamps
      ensures Valid(Model()) && Model() == Step(old(Model()), Delete(id))
    {
      ValidKept(Model(), Delete(id));
      DeleteRow(id);
    }

    /** Track or untrack a save on a device; untracking one never synced leaves a stamp of
        the present moment. */
    method SetUntracked(device: Device, id: nat, untracked: bool) returns (found: bool)
      requires Valid(Model())
      modifies this`clock, this`stamps
      ensures Valid(Model())
      ensures Model() == Step(old(Model()), Track(device, id, untracked)) && found == (id in rows)
    {
      ValidKept(Model(), Track(device, id, untracked));
      found := id in rows;
      if !found {
        return;
      }
      if (device, id) in stamps {
        stamps := stamps[(device, id) := stamps[(device, id)].(untracked := untracked)];
      } else if untracked {
        clock := clock + 1;
        stamps := stamps[(device, id) := Stamp(clock, true)];
      }
    }

    /** Write a save's bytes at its own path, then its digest: the row takes a new timestamp. */
    method Overwrite(id: nat, content: Content)
      requires id in rows
      modifies this`clock, this`rows, this`files
      ensures Model() == WriteRow(old(Model()), id, content)
    {
      files := files[rows[id].Location() := content];
      clock := clock + 1;
      rows := rows[id := rows[id].(hash := Digest(content), updatedAt := clock)];
    }

    method StampDelivery(device: Device, id: nat, ghost content: Option<Content>)
      modifies this`clock, this`stamps, this`held
      ensures Model() == StampNow(old(Model()), device, id, content)
    {
      clock := clock + 1;
      UpsertSync(device, id, clock);
      held := if content.Some? then held[(device, id) := content.value] else held;
    }

    method SendTo(device: Device, id: nat) returns (ok: bool)
      requires id in rows
      modifies this`clock, this`stamps, this`held
      ensures Model() == Deliver(old(Model()), device, id) && ok == (rows[id].Location() in files)
    {
      ok := rows[id].Location() in files;
      if ok {
        StampDelivery(device, id, Some(files[rows[id].Location()]));
      }
    }

    /** The first of the platform's saves, in query order, that is slotted and so named. */
    method FindByName(platform: seq<nat>, name: string) returns (found: Option<nat>)
      ensures found == MatchByName(rows, platform, name)
    {
      for i := 0 to |platform|
        invariant MatchByName(rows, platform, name) == MatchByName(rows, platform[i..], name)
      {
        if Bears(rows, platform[i], name) {
          return Some(platform[i]);
        }
      }
      found := None;
    }

    /** The watcher: no row of that name leaves everything alone. */
    method ProcessIncoming(device: Device, platform: seq<nat>, name: string, content: Content, mtime: int)
      returns (action: Option<Action>)
      requires Valid(Model())
      modifies this
      ensures Valid(Model())
      ensures match MatchByName(old(rows), platform, name)
              case None => Model() == old(Model()) && action == None
              case Some(id) => Model() == Step(old(Model()), Incoming(device, id, content, mtime))
                               && action == Some(Compared(old(Model()), device, id, content, mtime))
    {
      hide Valid, AddStep, MatchByName, CompareSaveState;
      var matched := FindByName(platform, name);
      if matched.None? {
        return None;
      }
      var id := matched.value;
      ValidKept(Model(), Incoming(device, id, content, mtime));
      var result := CompareSaveState(Some(Digest(content)), mtime, Some(rows[id].hash), rows[id].updatedAt,
                                     if (device, id) in stamps then Some(stamps[(device, id)].at) else None);
      action := Some(result);
      if result == UploadIt {
        Overwrite(id, content);
        StampDelivery(device, id, Some(content));
      } else if result == DownloadIt {
        var _ := SendTo(device, id);
      }
    }

    method ProcessRemote(device: Device, platform: seq<nat>, name: string, content: Content, mtime: int, transferred: bool)
      returns (action: Option<Action>)
      requires Valid(Model())
      modifies this
      ensures Valid(Model())
      ensures match MatchByName(old(rows), platform, name)
              case None => Model() == old(Model()) && action == None
              case Some(id) => Model() == Step(old(Model()), Remote(device, id, content, mtime, transferred))
                               && action == Some(Compared(old(Model()), device, id, content, mtime))
    {
      hide Valid, AddStep, MatchByName, CompareSaveState;
      var matched := FindByName(platform, name);
      if matched.None? {
        return None;
      }
      var id := matched.value;
      ValidKept(Model(), Remote(device, id, content, mtime, transferred));
      var result := CompareSaveState(Some(Digest(content)), mtime, Some(rows[id].hash), rows[id].updatedAt,
                                     if (device, id) in stamps then Some(stamps[(device, id)].at) else None);
      action := Some(result);
      if result == NoOp {
        StampDelivery(device, id, Seen(old(Model()), id, content));
      } else if result == UploadIt {
        Overwrite(id, content);
        StampDelivery(device, id, Some(content));
      } else if result == DownloadIt && transferred {
        var _ := SendTo(device, id);
      }
    }

    method PushOne(device: Device, id: nat, sent: bool) returns (ok: bool)
      requires Valid(Model())
      modifies this`clock, this`stamps, this`held
      ensures Valid(Model()) && Model() == Step(old(Model()), Push(device, id, sent))
      ensures clock == old(clock) + (if ok then 1 else 0)
    {
      ValidKept(Model(), Push(device, id, sent));
      ok := id in rows && rows[id].slot.Some? && !((device, id) in stamps && stamps[(device, id)].untracked) && sent;
      if ok {
        ok := SendTo(device, id);
      }
    }

    /** Push the platform's slotted saves whose file names the device does not list, one by
        one; `sent[i]` is whether the i-th transfer would succeed. */
    method PushMissing(device: Device, platform: seq<nat>, remote: set<string>, sent: seq<bool>) returns (pushed: nat)
      requires Valid(Model()) && |sent| == |platform|
      modifies this`clock, this`stamps, this`held
      ensures Valid(Model())
      ensures Model() == Run(old(Model()), PushRequests(rows, device, platform, remote, sent))
      ensures pushed == clock - old(clock)
    {
      pushed := 0;
      ghost var before := Model();
      var i := 0;
      hide Valid, Step;
      while i < |platform|
        invariant 0 <= i <= |platform|
        invariant Valid(Model())
        invariant Model() == Run(before, PushRequests(rows, device, platform[..i], remote, sent[..i]))
        invariant pushed == clock - before.clock
      {
        var id := platform[i];
        ghost var requests := PushRequests(rows, device, platform[..i], remote, sent[..i]);
        assert platform[..i + 1] == platform[..i] + [id] && sent[..i + 1] == sent[..i] + [sent[i]];
        PushSnoc(rows, device, platform[..i], remote, sent[..i], id, sent[i]);
        if id in rows && rows[id].name in remote {
          assert requests + [] == requests;
        } else {
          RunSnoc(before, requests, Push(device, id, sent[i]));
          var ok := PushOne(device, id, sent[i]);
          pushed := pushed + (if ok then 1 else 0);
        }
        i := i + 1;
      }
      assert platform[..i] == platform && sent[..i] == sent;
    }
  }

  predicate Bears(rows: map<nat, Row>, id: nat, name: string) {
    id in rows && rows[id].slot.Some? && rows[id].name == name
  }

  function MatchByName(rows: map<nat, Row>, platform: seq<nat>, name: string): (r: Option<nat>)
    ensures r.None? <==> forall i | 0 <= i < |platform| :: !Bears(rows, platform[i], name)
    ensures r.Some? ==> exists i :: 0 <= i < |platform| && platform[i] == r.value && Bears(rows, r.value, name)
                                    && forall j | 0 <= j < i :: !Bears(rows, platform[j], name)
  {
    if platform == [] then None
    else if Bears(rows, platform[0], name) then Some(platform[0])
    else
      var r := MatchByName(rows, platform[1..], name);
      MatchLater(rows, platform, name, r);
      r
  }

  lemma MatchLater(rows: map<nat, Row>, platform: seq<nat>, name: string, r: Option<nat>)
    requires platform != [] && !Bears(rows, platform[0], name)
    requires r.None? <==> forall i | 0 <= i < |platform[1..]| :: !Bears(rows, platform[1..][i], name)
    requires r.Some? ==> exists i :: 0 <= i < |platform[1..]| && platform[1..][i] == r.value && Bears(rows, r.value, name)
                                     && forall j | 0 <= j < i :: !Bears(rows, platform[1..][j], name)
    ensures r.None? <==> forall i | 0 <= i < |platform| :: !Bears(rows, platform[i], name)
    ensures r.Some? ==> exists i :: 0 <= i < |platform| && platform[i] == r.value && Bears(rows, r.value, name)
                                    && forall j | 0 <= j < i :: !Bears(rows, platform[j], name)
  {
    assert forall i | 1 <= i < |platform| :: platform[i] == platform[1..][i - 1];
    if r.Some? {
      var i :| 0 <= i < |platform[1..]| && platform[1..][i] == r.value
               && forall j | 0 <= j < i :: !Bears(rows, platform[1..][j], name);
      assert platform[i + 1] == r.value;
      forall j | 0 <= j < i + 1 ensures !Bears(rows, platform[j], name) {
        if j > 0 { assert platform[j] == platform[1..][j - 1]; }
      }
    }
  }

  function Deletions(ids: seq<nat>): seq<Request> {
    seq(|ids|, i requires 0 <= i < |ids| => Delete(ids[i]))
  }

  function PushRequests(rows: map<nat, Row>, d: Device, ids: seq<nat>, remote: set<string>, sent: seq<bool>): seq<Request>
    requires |ids| == |sent|
  {
    if ids == [] then []
    else (if ids[0] in rows && rows[ids[0]].name in remote then [] else [Push(d, ids[0], sent[0])])
         + PushRequests(rows, d, ids[1..], remote, sent[1..])
  }

  lemma {:induction false} PushSnoc(rows: map<nat, Row>, d: Device, ids: seq<nat>, remote: set<string>, sent: seq<bool>,
                                    id: nat, ok: bool)
    requires |ids| == |sent|
    ensures PushRequests(rows, d, ids + [id], remote, sent + [ok]) ==
            PushRequests(rows, d, ids, remote, sent)
            + (if id in rows && rows[id].name in remote then [] else [Push(d, id, ok)])
  {
    if ids == [] {
      assert PushRequests(rows, d, ([id])[1..], remote, ([ok])[1..]) == [];
    } else {
      assert (ids + [id])[1..] == ids[1..] + [id] && (sent + [ok])[1..] == sent[1..] + [ok];
      PushSnoc(rows, d, ids[1..], remote, sent[1..], id, ok);
    }
  }

  lemma {:induction false} RunSnoc(s: State, rs: seq<Request>, r: Request)
    requires Valid(s)
    ensures Run(s, rs + [r]) == Step(Run(s, rs), r)
    decreases |rs|
  {
    if rs == [] {
      ValidKept(s, r);
      assert ([r])[1..] == [];
    } else {
      ValidKept(s, rs[0]);
      assert (rs + [r])[1..] == rs[1..] + [r];
      RunSnoc(Step(s, rs[0]), rs[1..], r);
    }
  }

  /** A delivered file goes to the first slotted save of the platform that has its name. */
  lemma FirstOfThatName(rows: map<nat, Row>, platform: seq<nat>, name: string)
    ensures match MatchByName(rows, platform, name)
            case None => forall id | id in platform && id in rows && rows[id].slot.Some? :: rows[id].name != name
            case Some(id) =>
              && id in platform && id in rows && rows[id].slot.Some? && rows[id].name == name
              && exists i :: 0 <= i < |platform| && platform[i] == id
                             && forall j | 0 <= j < i && platform[j] in rows && rows[platform[j]].slot.Some? :: rows[platform[j]].name != name
  {
    hide MatchByName;
    assert forall i | 0 <= i < |platform| && platform[i] in rows ::
             Bears(rows, platform[i], name) <==> rows[platform[i]].slot.Some? && rows[platform[i]].name == name;
  }
}
