/** Multi-device save sync, as a transition system over one user's rows, files and
    per-device stamps. Requests are atomic and every database write of a row takes
    the next tick of a strictly increasing clock.

    `held` is history, not storage: the content each device last wrote, was served,
    or was seen holding for a save. Nothing the server decides reads it. */
module SaveSync {
  import opened Common

  type Device = string
  type Content = string

  /** An injective hash: two contents share a digest only if they are equal. */
  datatype Digest = Digest(of: Content)

  /** Where the bytes of a save live: the folder is fixed by ROM and emulator. */
  datatype Path = Path(rom: nat, emulator: string, name: string)

  datatype Row = Row(rom: nat, slot: Option<string>, emulator: string, name: string,
                     hash: Digest, updatedAt: int)
  {
    function Location(): Path { Path(rom, emulator, name) }
  }

  datatype Stamp = Stamp(at: int, untracked: bool)

  datatype State = State(
    clock: int,
    nextId: nat,
    rows: map<nat, Row>,
    files: map<Path, Content>,
    stamps: map<(Device, nat), Stamp>,
    held: map<(Device, nat), Content>)

  const EMPTY := State(0, 0, map[], map[], map[], map[])

  // ---- Requests ----

  datatype Upload = Upload(device: Option<Device>, rom: nat, emulator: string,
                           slot: Option<string>, name: string, content: Content,
                           overwrite: bool, autocleanup: bool, limit: int)
  {
    /** An empty slot name is falsy, so it takes the untagged, unslotted branches. */
    predicate Slotted() { slot.Some? && slot.value != "" }

    function Target(): Path { Path(rom, emulator, name) }
  }

  datatype Request =
    | Add(upload: Upload)
    | Download(reader: Option<Device>, id: nat, optimistic: bool, owner: bool)
    | Confirm(device: Device, id: nat)
    | Put(writer: Option<Device>, id: nat, file: Option<Content>)
    | Visibility(id: nat)
    | Delete(id: nat)
    | Track(device: Device, id: nat, untracked: bool)
    | Incoming(device: Device, id: nat, content: Content, mtime: int)
    | Remote(device: Device, id: nat, content: Content, mtime: int, transferred: bool)
    | Push(device: Device, id: nat, transferred: bool)

  // ---- Comparison of a client copy with the server's ----

  datatype Action = UploadIt | DownloadIt | Conflict | NoOp

  function CompareSaveState(clientHash: Option<Digest>, clientAt: int,
                            serverHash: Option<Digest>, serverAt: int,
                            lastSynced: Option<int>): Action
  {
    if clientHash.Some? && serverHash.Some? && clientHash == serverHash then NoOp
    else if lastSynced.Some? then
      var clientChanged, serverChanged := clientAt > lastSynced.value, serverAt > lastSynced.value;
      if clientChanged && serverChanged then Conflict
      else if clientChanged then UploadIt
      else if serverChanged then DownloadIt
      else NoOp
    else if clientAt > serverAt then UploadIt
    else if serverAt > clientAt then DownloadIt
    else if clientHash != serverHash then Conflict
    else NoOp
  }

  // ---- Queries ----

  function Matching(rows: map<nat, Row>, rom: nat, name: string, slot: Option<string>): set<nat> {
    set id | id in rows && rows[id].rom == rom && rows[id].name == name && rows[id].slot == slot
  }

  function At(rows: map<nat, Row>, p: Path): set<nat> {
    set id | id in rows && rows[id].Location() == p
  }

  function SlotIds(rows: map<nat, Row>, rom: nat, slot: Option<string>): set<nat> {
    set id | id in rows && rows[id].rom == rom && rows[id].slot == slot
  }

  predicate IsNewest(s: State, ids: set<nat>, id: nat)
    requires ids <= s.rows.Keys
  {
    id in ids && forall x | x in ids :: s.rows[x].updatedAt <= s.rows[id].updatedAt
  }

  /** Whether `d`'s stamp on `id` has reached the row's own timestamp. */
  predicate Current(s: State, d: Device, id: nat)
    requires id in s.rows
  {
    (d, id) in s.stamps && s.stamps[(d, id)].at >= s.rows[id].updatedAt
  }

  /** Whether `d` last wrote, was served or was seen with the row's present content. */
  predicate Holds(s: State, d: Device, id: nat)
    requires id in s.rows
  {
    (d, id) in s.held && Digest(s.held[(d, id)]) == s.rows[id].hash
  }

  // ---- Invariants ----

  predicate SameTime(a: Row, b: Row) { a.updatedAt == b.updatedAt }

  predicate SameName(a: Row, b: Row) { a.rom == b.rom && a.name == b.name && a.slot == b.slot }

  predicate SamePath(a: Row, b: Row) { a.Location() == b.Location() }

  ghost predicate DistinctTimes(s: State) {
    forall i, j {:trigger SameTime(s.rows[i], s.rows[j])} | i in s.rows && j in s.rows && i != j ::
      !SameTime(s.rows[i], s.rows[j])
  }

  ghost predicate DistinctNames(s: State) {
    forall i, j {:trigger SameName(s.rows[i], s.rows[j])} | i in s.rows && j in s.rows && i != j ::
      !SameName(s.rows[i], s.rows[j])
  }

  /** No two rows share a file. */
  ghost predicate Apart(s: State) {
    forall i, j {:trigger SamePath(s.rows[i], s.rows[j])} | i in s.rows && j in s.rows && i != j ::
      !SamePath(s.rows[i], s.rows[j])
  }

  /** Nothing recorded lies in the future, and every stamp belongs to a row. */
  ghost predicate Bounded(s: State) {
    && (forall id | id in s.rows :: id < s.nextId && s.rows[id].updatedAt <= s.clock)
    && (forall k | k in s.stamps :: k.1 in s.rows && s.stamps[k].at <= s.clock)
  }

  /** What every request keeps, whatever its arguments. */
  ghost predicate Valid(s: State) {
    Bounded(s) && DistinctTimes(s) && DistinctNames(s)
  }

  /** Every row's path holds bytes hashing to its recorded digest. */
  ghost predicate Agree(s: State) {
    forall id | id in s.rows ::
      s.rows[id].Location() in s.files && Digest(s.files[s.rows[id].Location()]) == s.rows[id].hash
  }

  /** A stamp reaches a save's timestamp only if the device holds its content. */
  ghost predicate Sound(s: State) {
    forall d, id | id in s.rows && Current(s, d, id) :: Holds(s, d, id)
  }

  ghost predicate Inv(s: State) {
    Valid(s) && Agree(s) && Apart(s) && Sound(s)
  }

  // ---- One upload ----

  function Named(s: State, q: Upload): (r: Option<nat>)
    ensures r.Some? ==> r.value in Matching(s.rows, q.rom, q.name, q.slot)
  {
    var ids := Matching(s.rows, q.rom, q.name, q.slot);
    if ids == {} then None else Some(Least(ids))
  }

  function NewestOf(s: State, ids: set<nat>): (id: nat)
    requires Valid(s) && ids <= s.rows.Keys && ids != {}
    ensures IsNewest(s, ids, id)
  {
    NewestExists(s, ids);
    NewestUnique(s, ids);
    var id :| IsNewest(s, ids, id);
    id
  }

  lemma NewestUnique(s: State, ids: set<nat>)
    requires DistinctTimes(s) && ids <= s.rows.Keys
    ensures forall i, j | IsNewest(s, ids, i) && IsNewest(s, ids, j) :: i == j
  {
    forall i, j | IsNewest(s, ids, i) && IsNewest(s, ids, j) ensures i == j {
      assert SameTime(s.rows[i], s.rows[j]);
    }
  }

  lemma NewestExists(s: State, ids: set<nat>)
    requires ids <= s.rows.Keys && ids != {}
    ensures exists id :: IsNewest(s, ids, id)
  {
    var y :| y in ids;
    if ids == {y} {
      assert IsNewest(s, ids, y);
    } else {
      var rest := ids - {y};
      assert ids == rest + {y};
      NewestExists(s, rest);
      var r :| IsNewest(s, rest, r);
      assert IsNewest(s, ids, if s.rows[r].updatedAt < s.rows[y].updatedAt then y else r);
    }
  }

  /** The 409 check: against the slot's newest save for a slot upload, against the
      save of that very name otherwise. */
  predicate Refused(s: State, q: Upload)
    requires Valid(s)
  {
    if q.device.None? || q.overwrite then false
    else if q.Slotted() then
      var ids := SlotIds(s.rows, q.rom, q.slot);
      ids != {} && !Current(s, q.device.value, NewestOf(s, ids))
    else
      var named := Named(s, q);
      && named.Some?
      && (q.device.value, named.value) in s.stamps
      && s.stamps[(q.device.value, named.value)].at < s.rows[named.value].updatedAt
  }

  predicate Duplicate(s: State, q: Upload) {
    && q.Slotted() && !q.overwrite
    && exists id :: id in s.rows && id in SlotIds(s.rows, q.rom, q.slot) && s.rows[id].hash == Digest(q.content)
  }

  /** The row an upload overwrites: the one of that name in that slot, else a row that
      already uses the path with other content. */
  function Overwritten(s: State, q: Upload): (r: Option<nat>)
    ensures r.Some? ==> r.value in s.rows && s.rows[r.value].rom == q.rom && s.rows[r.value].name == q.name
  {
    if Named(s, q).Some? then Named(s, q)
    else
      var ids := At(s.rows, q.Target());
      if ids != {} && s.rows[Least(ids)].hash != Digest(q.content) then Some(Least(ids)) else None
  }

  function NewRow(s: State, q: Upload): Row {
    match Overwritten(s, q)
    case Some(id) =>
      var slot := if q.slot.Some? then q.slot else s.rows[id].slot;
      s.rows[id].(emulator := q.emulator, hash := Digest(q.content), slot := slot, updatedAt := s.clock + 1)
    case None => Row(q.rom, q.slot, q.emulator, q.name, Digest(q.content), s.clock + 1)
  }

  function StoredId(s: State, q: Upload): nat {
    Overwritten(s, q).GetOr(s.nextId)
  }

  /** The bytes an overwritten row leaves behind go when no other row uses them. */
  function StaleBytes(s: State, q: Upload): set<Path> {
    match Overwritten(s, q)
    case Some(id) =>
      var before := s.rows[id].Location();
      if before != NewRow(s, q).Location() && At(s.rows, before) - {id} == {} then {before} else {}
    case None => {}
  }

  function Written(s: State, q: Upload): State {
    s.(clock := s.clock + 1,
       nextId := if Overwritten(s, q).Some? then s.nextId else s.nextId + 1,
       rows := s.rows[StoredId(s, q) := NewRow(s, q)],
       files := s.files[q.Target() := q.content] - StaleBytes(s, q))
  }

  function Store(s: State, q: Upload): State {
    var s' := Written(s, q);
    if q.device.Some? then StampAt(s', q.device.value, StoredId(s, q), s.clock + 1, Some(q.content)) else s'
  }

  /** Stamp a device, and note the content it is known to have when there is one. */
  function StampAt(s: State, d: Device, id: nat, at: int, content: Option<Content>): State {
    s.(stamps := s.stamps[(d, id) := Stamp(at, false)],
       held := if content.Some? then s.held[(d, id) := content.value] else s.held)
  }

  function Locations(rows: map<nat, Row>, ids: set<nat>): set<Path> {
    set id | id in ids && id in rows :: rows[id].Location()
  }

  function Remove(s: State, ids: set<nat>): State {
    s.(rows := s.rows - ids,
       files := s.files - Locations(s.rows, ids),
       stamps := map k | k in s.stamps && k.1 !in ids :: s.stamps[k])
  }

  /** How many rows of the set are newer than `id`. */
  function Newer(s: State, ids: set<nat>, id: nat): set<nat>
    requires ids <= s.rows.Keys && id in s.rows
  {
    set x | x in ids && s.rows[x].updatedAt > s.rows[id].updatedAt
  }

  /** The rows of a slot that retention drops: those with `limit` newer ones. */
  function Expired(s: State, ids: set<nat>, limit: nat): set<nat>
    requires ids <= s.rows.Keys
  {
    set id | id in ids && |Newer(s, ids, id)| >= limit
  }

  const MAX_AUTOCLEANUP_LIMIT := 100

  /** Brought into range: a client keeps its own upload, and no more than the maximum. */
  function ClampLimit(limit: int): (r: nat)
    ensures 1 <= r <= MAX_AUTOCLEANUP_LIMIT && (1 <= limit <= MAX_AUTOCLEANUP_LIMIT ==> r == limit)
    ensures (limit < 1 ==> r == 1) && (limit > MAX_AUTOCLEANUP_LIMIT ==> r == MAX_AUTOCLEANUP_LIMIT)
  {
    var capped := if limit < MAX_AUTOCLEANUP_LIMIT then limit else MAX_AUTOCLEANUP_LIMIT;
    if capped < 1 then 1 else capped
  }

  function Cleanup(s: State, q: Upload): State {
    if q.Slotted() && q.autocleanup then
      Remove(s, Expired(s, SlotIds(s.rows, q.rom, q.slot), ClampLimit(q.limit)))
    else s
  }

  datatype Outcome = Rejected409 | Kept | Stored(id: nat)

  function AddOutcome(s: State, q: Upload): Outcome
    requires Valid(s)
  {
    if Refused(s, q) then Rejected409
    else if Duplicate(s, q) then Kept
    else Stored(StoredId(s, q))
  }

  /** A duplicate is found only after the bytes were written, and is undone by
      removing what was written. */
  function AddStep(s: State, q: Upload): State
    requires Valid(s)
  {
    match AddOutcome(s, q)
    case Rejected409 => s
    case Kept => s.(files := s.files[q.Target() := q.content] - {q.Target()})
    case Stored(_) => Cleanup(Store(s, q), q)
  }

  // ---- The other requests ----

  function WriteRow(s: State, id: nat, content: Content): State
    requires id in s.rows
  {
    s.(clock := s.clock + 1,
       rows := s.rows[id := s.rows[id].(hash := Digest(content), updatedAt := s.clock + 1)],
       files := s.files[s.rows[id].Location() := content])
  }

  /** Stamped with the instant of delivery, which is after the row's own. */
  function StampNow(s: State, d: Device, id: nat, content: Option<Content>): State {
    StampAt(s.(clock := s.clock + 1), d, id, s.clock + 1, content)
  }

  function Compared(s: State, d: Device, id: nat, content: Content, mtime: int): Action
    requires id in s.rows
  {
    CompareSaveState(Some(Digest(content)), mtime, Some(s.rows[id].hash), s.rows[id].updatedAt,
                     if (d, id) in s.stamps then Some(s.stamps[(d, id)].at) else None)
  }

  /** Send the server's bytes to a device; nothing is stamped when they are missing. */
  function Deliver(s: State, d: Device, id: nat): State
    requires id in s.rows
  {
    var p := s.rows[id].Location();
    if p in s.files then StampNow(s, d, id, Some(s.files[p])) else s
  }

  function Seen(s: State, id: nat, content: Content): Option<Content>
    requires id in s.rows
  {
    if Digest(content) == s.rows[id].hash then Some(content) else None
  }

  function Step(s: State, r: Request): State
    requires Valid(s)
  {
    match r
    case Add(q) => AddStep(s, q)
    case Download(reader, id, optimistic, owner) =>
      if id !in s.rows || s.rows[id].Location() !in s.files || reader.None? then s
      else
        var served := s.files[s.rows[id].Location()];
        if optimistic && owner then StampAt(s, reader.value, id, s.rows[id].updatedAt, Some(served))
        else s.(held := s.held[(reader.value, id) := served])
    case Confirm(device, id) =>
      if id !in s.rows then s else StampAt(s, device, id, s.rows[id].updatedAt, None)
    case Put(writer, id, file) =>
      if id !in s.rows then s
      else
        var s' := if file.Some? then WriteRow(s, id, file.value) else s;
        if writer.Some? then StampAt(s', writer.value, id, s'.rows[id].updatedAt, file) else s'
    case Visibility(id) =>
      if id !in s.rows then s
      else s.(clock := s.clock + 1, rows := s.rows[id := s.rows[id].(updatedAt := s.clock + 1)])
    case Delete(id) => if id !in s.rows then s else Remove(s, {id})
    case Track(device, id, untracked) =>
      if id !in s.rows then s
      else if (device, id) in s.stamps then
        s.(stamps := s.stamps[(device, id) := s.stamps[(device, id)].(untracked := untracked)])
      else if untracked then
        s.(clock := s.clock + 1, stamps := s.stamps[(device, id) := Stamp(s.clock + 1, true)])
      else s
    case Incoming(device, id, content, mtime) =>
      if id !in s.rows || s.rows[id].slot.None? then s
      else (
        match Compared(s, device, id, content, mtime)
        case UploadIt => StampNow(WriteRow(s, id, content), device, id, Some(content))
        case DownloadIt => Deliver(s, device, id)
        case Conflict => s
        case NoOp => s)
    case Remote(device, id, content, mtime, transferred) =>
      if id !in s.rows || s.rows[id].slot.None? then s
      else (
        match Compared(s, device, id, content, mtime)
        case UploadIt => StampNow(WriteRow(s, id, content), device, id, Some(content))
        case DownloadIt => if transferred then Deliver(s, device, id) else s
        case Conflict => s
        case NoOp => StampNow(s, device, id, Seen(s, id, content)))
    case Push(device, id, transferred) =>
      if id !in s.rows || s.rows[id].slot.None? then s
      else if (device, id) in s.stamps && s.stamps[(device, id)].untracked then s
      else if transferred then Deliver(s, device, id)
      else s
  }
}
