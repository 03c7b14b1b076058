/** What a negotiation answers, stated without its loops, and how it fits the requests
    that carry it out. */
module NegotiationProofs {
  import opened Common
  import opened SaveSync
  import opened SaveSyncProofs
  import opened Negotiation

  // ---- The newest row of a key ----

  /** `row` is a strictly newest row among those the predicate of a key selects. */
  predicate Leads(rows: seq<Saved>, row: Saved) {
    && row in rows
    && forall x | x in rows && x.Pairing() == row.Pairing() :: x == row || x.updatedAt < row.updatedAt
  }

  predicate Tied(a: Saved, b: Saved) { a != b && a.Pairing() == b.Pairing() && a.updatedAt == b.updatedAt }

  ghost predicate TieFree(rows: seq<Saved>) {
    forall a, b | a in rows && b in rows :: !Tied(a, b)
  }

  /** Ids are primary keys: a row is listed once, and its id names no other row. */
  predicate DistinctIds(rows: seq<Saved>) {
    forall a, b | a in rows && b in rows && a.id == b.id :: a == b
  }

  lemma {:induction false} NewestIsLargest(rows: seq<Saved>, x: Saved)
    requires x in rows
    ensures Newest(rows, x.Pairing()).Some? && x.updatedAt <= Newest(rows, x.Pairing()).value.updatedAt
  {
    var front := rows[..|rows| - 1];
    assert rows == front + [rows[|rows| - 1]];
    if x in front { NewestIsLargest(front, x); }
  }

  lemma NewestIsLeader(rows: seq<Saved>, row: Saved)
    requires TieFree(rows)
    ensures Newest(rows, row.Pairing()) == Some(row) <==> Leads(rows, row)
  {
    if row in rows {
      NewestIsLargest(rows, row);
      var top := Newest(rows, row.Pairing()).value;
      forall x | x in rows && x.Pairing() == row.Pairing() ensures x == top || x.updatedAt < top.updatedAt {
        NewestIsLargest(rows, x);
        assert !Tied(x, top);
      }
    }
  }

  // ---- One operation per client save ----

  /** `row` is a live, slotted row that leads its key and is the one an operation names. */
  predicate Backs(library: seq<Saved>, rows: seq<Saved>, row: Saved, op: Operation) {
    row in library && row.slot.Some? && Leads(rows, row) && op.saveId == Some(row.id)
  }

  lemma NothingArchivalOrSuperseded(library: seq<Saved>, stamps: map<nat, Stamp>, scope: Option<seq<nat>>,
                                    clients: seq<ClientSave>, op: Operation)
    requires TieFree(Query(library, scope, clients)) && op in Negotiated(Query(library, scope, clients), stamps, clients)
    ensures op.saveId.Some? ==> exists row :: Backs(library, Query(library, scope, clients), row, op)
  {
    var rows := Query(library, scope, clients);
    var key: Key;
    if op in ClientOperations(rows, stamps, clients) {
      var i :| 0 <= i < |clients| && op == ClientOperations(rows, stamps, clients)[i];
      key := clients[i].Pairing();
    } else {
      DownloadOrigin(rows, stamps, Mentioned(rows, clients), KeyOrder(rows), op);
      key :| key in KeyOrder(rows) && Yields(rows, stamps, Mentioned(rows, clients), key, op);
    }
    hide Leads;
    if op.saveId.Some? {
      var row := Newest(rows, key).value;
      NewestIsLeader(rows, row);
      assert Backs(library, rows, row, op);
    }
  }

  // ---- Downloads for saves the client did not list ----

  predicate Yields(rows: seq<Saved>, stamps: map<nat, Stamp>, mentioned: set<nat>, key: Key, op: Operation) {
    var row := Newest(rows, key);
    row.Some? && op == Offer(row.value, DownloadIt) && row.value.id !in mentioned && Wanted(row.value, stamps)
  }

  lemma {:induction false} DownloadOrigin(rows: seq<Saved>, stamps: map<nat, Stamp>, mentioned: set<nat>,
                                          keys: seq<Key>, op: Operation)
    requires forall k | k in keys :: Newest(rows, k).Some?
    ensures op in Downloads(rows, stamps, mentioned, keys) <==>
            exists k :: k in keys && Yields(rows, stamps, mentioned, k, op)
  {
    if keys != [] {
      var front, last := keys[..|keys| - 1], keys[|keys| - 1];
      assert forall k :: k in keys <==> k in front || k == last;
      DownloadOrigin(rows, stamps, mentioned, front, op);
      assert op in Downloads(rows, stamps, mentioned, keys) <==>
             op in Downloads(rows, stamps, mentioned, front) || Yields(rows, stamps, mentioned, last, op);
    }
  }

  lemma {:induction false} DownloadsDistinct(rows: seq<Saved>, stamps: map<nat, Stamp>, mentioned: set<nat>, keys: seq<Key>)
    requires forall k | k in keys :: Newest(rows, k).Some?
    requires forall i, j | 0 <= i < j < |keys| :: keys[i] != keys[j]
    ensures forall i, j | 0 <= i < j < |Downloads(rows, stamps, mentioned, keys)| ::
              Downloads(rows, stamps, mentioned, keys)[i] != Downloads(rows, stamps, mentioned, keys)[j]
  {
    if keys != [] {
      var front, last := keys[..|keys| - 1], keys[|keys| - 1];
      DownloadsDistinct(rows, stamps, mentioned, front);
      var op := Offer(Newest(rows, last).value, DownloadIt);
      DownloadOrigin(rows, stamps, mentioned, front, op);
      forall k | k in front ensures !Yields(rows, stamps, mentioned, k, op) {
        assert k != last && Newest(rows, k).value.Pairing() == k;
      }
    }
  }

  lemma {:induction false} MentionedMeans(rows: seq<Saved>, clients: seq<ClientSave>, id: nat)
    ensures id in Mentioned(rows, clients) <==>
            exists i :: 0 <= i < |clients| && Newest(rows, clients[i].Pairing()).Some? && Newest(rows, clients[i].Pairing()).value.id == id
  {
    if clients != [] {
      var front, last := clients[..|clients| - 1], clients[|clients| - 1];
      MentionedMeans(rows, front, id);
      if i :| 0 <= i < |front| && Newest(rows, front[i].Pairing()).Some? && Newest(rows, front[i].Pairing()).value.id == id {
        assert clients[i] == front[i];
      }
      if i :| 0 <= i < |clients| && Newest(rows, clients[i].Pairing()).Some? && Newest(rows, clients[i].Pairing()).value.id == id {
        if i < |front| { assert front[i] == clients[i]; }
      }
    }
  }

  /** A leading row is mentioned exactly when the client lists a save of its key. */
  lemma MentionedByKey(rows: seq<Saved>, clients: seq<ClientSave>, row: Saved)
    requires DistinctIds(rows) && Newest(rows, row.Pairing()) == Some(row)
    ensures row.id in Mentioned(rows, clients) <==> Lists(clients, row.Pairing())
  {
    MentionedMeans(rows, clients, row.id);
    if i :| 0 <= i < |clients| && clients[i].Pairing() == row.Pairing() {
      assert Newest(rows, clients[i].Pairing()).value.id == row.id;
    }
  }

  /** The rows a negotiation offers beyond what the client lists: newest of a key the
      client does not mention, in scope, and never stamped or updated after the stamp. */
  predicate Due(rows: seq<Saved>, stamps: map<nat, Stamp>, clients: seq<ClientSave>, row: Saved) {
    Leads(rows, row) && !Lists(clients, row.Pairing()) && Wanted(row, stamps)
  }

  /** Exactly the due rows are offered, each exactly once. */
  lemma MissingExactly(rows: seq<Saved>, stamps: map<nat, Stamp>, clients: seq<ClientSave>)
    requires TieFree(rows) && DistinctIds(rows)
    ensures forall op :: op in Missing(rows, stamps, clients) <==>
                         exists row :: Due(rows, stamps, clients, row) && op == Offer(row, DownloadIt)
    ensures forall i, j | 0 <= i < j < |Missing(rows, stamps, clients)| ::
              Missing(rows, stamps, clients)[i].saveId != Missing(rows, stamps, clients)[j].saveId
  {
    var ops := Missing(rows, stamps, clients);
    forall op ensures op in ops <==> exists row :: Due(rows, stamps, clients, row) && op == Offer(row, DownloadIt) {
      OfferedIsDue(rows, stamps, clients, op);
    }
    DownloadsDistinct(rows, stamps, Mentioned(rows, clients), KeyOrder(rows));
    hide Due, Missing, DistinctIds;
    forall i, j | 0 <= i < j < |ops| ensures ops[i].saveId != ops[j].saveId {
      assert ops[i] in ops && ops[j] in ops;
      if ops[i].saveId == ops[j].saveId {
        SameOffer(rows, stamps, clients, ops[i], ops[j]);
      }
    }
  }

  lemma SameOffer(rows: seq<Saved>, stamps: map<nat, Stamp>, clients: seq<ClientSave>, a: Operation, b: Operation)
    requires TieFree(rows) && DistinctIds(rows)
    requires a in Missing(rows, stamps, clients) && b in Missing(rows, stamps, clients) && a.saveId == b.saveId
    ensures a == b
  {
    OfferedIsDue(rows, stamps, clients, a);
    OfferedIsDue(rows, stamps, clients, b);
  }

  lemma OfferedIsDue(rows: seq<Saved>, stamps: map<nat, Stamp>, clients: seq<ClientSave>, op: Operation)
    requires TieFree(rows) && DistinctIds(rows)
    ensures op in Missing(rows, stamps, clients) <==>
            exists row :: Due(rows, stamps, clients, row) && op == Offer(row, DownloadIt)
  {
    var keys, mentioned := KeyOrder(rows), Mentioned(rows, clients);
    DownloadOrigin(rows, stamps, mentioned, keys, op);
    if op in Missing(rows, stamps, clients) {
      var k :| k in keys && Yields(rows, stamps, mentioned, k, op);
      var row := Newest(rows, k).value;
      NewestIsLeader(rows, row);
      MentionedByKey(rows, clients, row);
      assert Due(rows, stamps, clients, row);
    }
    if row :| Due(rows, stamps, clients, row) && op == Offer(row, DownloadIt) {
      NewestIsLeader(rows, row);
      MentionedByKey(rows, clients, row);
      KeyOrderComplete(rows, row.Pairing());
      assert Yields(rows, stamps, mentioned, row.Pairing(), op);
    }
  }

  /** Without ties the answer does not depend on the order rows come back in: the client's
      saves get the same operations, and the same downloads are offered. */
  lemma OrderDoesNotMatter(library: seq<Saved>, shuffled: seq<Saved>, stamps: map<nat, Stamp>,
                           scope: Option<seq<nat>>, clients: seq<ClientSave>)
    requires forall r :: r in library <==> r in shuffled
    requires TieFree(Query(library, scope, clients)) && DistinctIds(library)
    ensures var rows, rows' := Query(library, scope, clients), Query(shuffled, scope, clients);
            && ClientOperations(rows, stamps, clients) == ClientOperations(rows', stamps, clients)
            && (forall op :: op in Missing(rows, stamps, clients) <==> op in Missing(rows', stamps, clients))
  {
    var rows, rows' := Query(library, scope, clients), Query(shuffled, scope, clients);
    forall key ensures Newest(rows, key) == Newest(rows', key) { SameNewest(rows, rows', key); }
    forall op ensures op in Missing(rows, stamps, clients) <==> op in Missing(rows', stamps, clients) {
      OfferedIsDue(rows, stamps, clients, op);
      OfferedIsDue(rows', stamps, clients, op);
      forall row ensures Due(rows, stamps, clients, row) <==> Due(rows', stamps, clients, row) {}
    }
  }

  lemma SameNewest(rows: seq<Saved>, rows': seq<Saved>, key: Key)
    requires forall r :: r in rows <==> r in rows'
    requires TieFree(rows)
    ensures Newest(rows, key) == Newest(rows', key)
  {
    if Newest(rows, key).Some? {
      NewestIsLeader(rows, Newest(rows, key).value);
      NewestIsLeader(rows', Newest(rows, key).value);
    } else if Newest(rows', key).Some? {
      NewestIsLargest(rows, Newest(rows', key).value);
    }
  }

  // ---- Negotiating against the sync state ----

  function Snapshot(id: nat, row: Row): Saved {
    Saved(id, row.rom, row.slot, row.emulator, row.name, Some(row.hash), row.updatedAt)
  }

  /** `library` lists exactly the rows of the state, in any order. */
  ghost predicate Listed(s: State, library: seq<Saved>) {
    forall r :: r in library <==> r.id in s.rows && r == Snapshot(r.id, s.rows[r.id])
  }

  function StampsOf(s: State, d: Device): map<nat, Stamp> {
    map id | id in s.rows && (d, id) in s.stamps :: s.stamps[(d, id)]
  }

  lemma ListedIsSound(s: State, library: seq<Saved>, scope: Option<seq<nat>>, clients: seq<ClientSave>)
    requires Valid(s) && Listed(s, library)
    ensures TieFree(Query(library, scope, clients)) && DistinctIds(Query(library, scope, clients))
  {
    forall a, b | a in library && b in library ensures !Tied(a, b) {
      if a.id != b.id { assert !SameTime(s.rows[a.id], s.rows[b.id]); }
    }
  }

  function Confirmations(d: Device, ops: seq<Operation>): (rs: seq<Request>)
    requires forall op | op in ops :: op.saveId.Some?
    ensures |rs| == |ops| && forall i | 0 <= i < |rs| :: rs[i] == Confirm(d, ops[i].saveId.value)
  {
    seq(|ops|, i requires 0 <= i < |ops| => Confirm(d, ops[i].saveId.value))
  }

  /** Confirming saves stamps exactly those with their own timestamps, and nothing else. */
  lemma {:induction false} ConfirmAll(s: State, d: Device, rs: seq<Request>)
    requires Valid(s)
    requires forall r | r in rs :: r.Confirm? && r.device == d && r.id in s.rows
    ensures Valid(Run(s, rs)) && Run(s, rs).rows == s.rows
    ensures forall id :: id in s.rows && Confirm(d, id) in rs ==>
              (d, id) in Run(s, rs).stamps && Run(s, rs).stamps[(d, id)] == Stamp(s.rows[id].updatedAt, false)
    ensures forall k: (Device, nat) :: (k.0 != d || Confirm(d, k.1) !in rs) ==>
              ((k in Run(s, rs).stamps <==> k in s.stamps) && (k in s.stamps ==> Run(s, rs).stamps[k] == s.stamps[k]))
    decreases |rs|
  {
    hide Valid;
    if rs != [] {
      assert rs[0] in rs;
      ValidKept(s, rs[0]);
      var t := Step(s, rs[0]);
      assert rs == [rs[0]] + rs[1..];
      ConfirmAll(t, d, rs[1..]);
    }
  }

  lemma MissingNamesRows(rows: seq<Saved>, stamps: map<nat, Stamp>, clients: seq<ClientSave>)
    ensures forall op | op in Missing(rows, stamps, clients) ::
              op.saveId.Some? && exists row :: row in rows && op.saveId.value == row.id
  {
    forall op | op in Missing(rows, stamps, clients)
      ensures op.saveId.Some? && exists row :: row in rows && op.saveId.value == row.id
    {
      DownloadOrigin(rows, stamps, Mentioned(rows, clients), KeyOrder(rows), op);
    }
  }

  function Accept(s: State, d: Device, rows: seq<Saved>, clients: seq<ClientSave>): seq<Request> {
    MissingNamesRows(rows, StampsOf(s, d), clients);
    Confirmations(d, Missing(rows, StampsOf(s, d), clients))
  }

  lemma AcceptConfirms(s: State, d: Device, rows: seq<Saved>, clients: seq<ClientSave>, row: Saved)
    requires TieFree(rows) && DistinctIds(rows) && row in rows
    ensures Confirm(d, row.id) in Accept(s, d, rows, clients) <==> Due(rows, StampsOf(s, d), clients, row)
  {
    var stamps := StampsOf(s, d);
    var ops, rs := Missing(rows, stamps, clients), Accept(s, d, rows, clients);
    MissingNamesRows(rows, stamps, clients);
    if Confirm(d, row.id) in rs {
      var i :| 0 <= i < |rs| && rs[i] == Confirm(d, row.id);
      assert ops[i] in ops;
      OfferedIsDue(rows, stamps, clients, ops[i]);
    }
    if Due(rows, stamps, clients, row) {
      OfferedIsDue(rows, stamps, clients, Offer(row, DownloadIt));
      var i :| 0 <= i < |ops| && ops[i] == Offer(row, DownloadIt);
      assert rs[i] == Confirm(d, row.id);
    }
  }

  /** What a device's stamp on a row says after it confirmed every offered download. */
  lemma AcceptedStamp(s: State, d: Device, library: seq<Saved>, scope: Option<seq<nat>>, clients: seq<ClientSave>, row: Saved)
    requires Valid(s) && Listed(s, library) && row in Query(library, scope, clients)
    ensures var rows := Query(library, scope, clients);
            var before, after := StampsOf(s, d), StampsOf(Run(s, Accept(s, d, rows, clients)), d);
            && Run(s, Accept(s, d, rows, clients)).rows == s.rows
            && if Due(rows, before, clients, row) then row.id in after && after[row.id] == Stamp(row.updatedAt, false)
               else (row.id in after <==> row.id in before) && (row.id in before ==> after[row.id] == before[row.id])
  {
    var rows := Query(library, scope, clients);
    var stamps, rs := StampsOf(s, d), Accept(s, d, rows, clients);
    ListedIsSound(s, library, scope, clients);
    AcceptConfirms(s, d, rows, clients, row);
    MissingNamesRows(rows, stamps, clients);
    forall r | r in rs ensures r.Confirm? && r.device == d && r.id in s.rows {
      var i :| 0 <= i < |rs| && rs[i] == r;
      assert Missing(rows, stamps, clients)[i] in Missing(rows, stamps, clients);
    }
    ConfirmAll(s, d, rs);
    assert row.id in s.rows && row == Snapshot(row.id, s.rows[row.id]);
  }

  /** Once every offered download is confirmed, with no write between, renegotiating the
      same payload answers the client's own saves as before and offers nothing else. */
  lemma Converges(s: State, d: Device, library: seq<Saved>, scope: Option<seq<nat>>, clients: seq<ClientSave>)
    requires Valid(s) && Listed(s, library)
    ensures var rows := Query(library, scope, clients);
            var s' := Run(s, Accept(s, d, rows, clients));
            && s'.rows == s.rows
            && Negotiated(rows, StampsOf(s', d), clients) == ClientOperations(rows, StampsOf(s, d), clients)
  {
    var rows := Query(library, scope, clients);
    var rs := Accept(s, d, rows, clients);
    var s' := Run(s, rs);
    var before, after := StampsOf(s, d), StampsOf(s', d);
    ListedIsSound(s, library, scope, clients);
    AcceptedRows(s, d, library, scope, clients);
    if Missing(rows, after, clients) != [] {
      var op := Missing(rows, after, clients)[0];
      OfferedIsDue(rows, after, clients, op);
      var row :| Due(rows, after, clients, row) && op == Offer(row, DownloadIt);
      AcceptedStamp(s, d, library, scope, clients, row);
      assert false;
    }
    forall i | 0 <= i < |clients|
      ensures ClientOperations(rows, after, clients)[i] == ClientOperations(rows, before, clients)[i]
    {
      var paired := Newest(rows, clients[i].Pairing());
      if paired.Some? {
        AcceptedStamp(s, d, library, scope, clients, paired.value);
        assert Lists(clients, paired.value.Pairing());
      }
    }
  }

  lemma AcceptedRows(s: State, d: Device, library: seq<Saved>, scope: Option<seq<nat>>, clients: seq<ClientSave>)
    requires Valid(s) && Listed(s, library)
    ensures Run(s, Accept(s, d, Query(library, scope, clients), clients)).rows == s.rows
  {
    var rows := Query(library, scope, clients);
    if |rows| > 0 {
      AcceptedStamp(s, d, library, scope, clients, rows[0]);
    }
  }

  // ---- A save the client dropped ----

  /** From `s` to `t`, ids are not reused, a row's timestamp does not go back, and a stamp
      that had reached a row still reaches it unless the row has moved on. */
  predicate Carries(s: State, t: State, d: Device, id: nat) {
    && s.nextId <= t.nextId
    && (id in t.rows && id < s.nextId ==>
          && id in s.rows && s.rows[id].updatedAt <= t.rows[id].updatedAt
          && (s.rows[id].updatedAt == t.rows[id].updatedAt && Current(s, d, id) ==> Current(t, d, id)))
  }

  lemma StoreCarries(s: State, q: Upload, d: Device, id: nat)
    requires Valid(s)
    ensures Carries(s, Store(s, q), d, id)
  {
    hide Overwritten, StaleBytes;
  }

  lemma AddCarries(s: State, q: Upload, d: Device, id: nat)
    requires Valid(s)
    ensures Carries(s, AddStep(s, q), d, id)
  {
    StoreCarries(s, q, d, id);
    hide Refused, Duplicate, Store, StoredId, Expired;
  }

  lemma ExchangeCarries(s: State, device: Device, x: nat, content: Content, seen: Option<Content>, d: Device, id: nat)
    requires Valid(s) && x in s.rows
    ensures Carries(s, StampNow(WriteRow(s, x, content), device, x, Some(content)), d, id)
    ensures Carries(s, Deliver(s, device, x), d, id)
    ensures Carries(s, StampNow(s, device, x, seen), d, id)
  {
  }

  lemma LocalCarries(s: State, r: Request, d: Device, id: nat)
    requires Valid(s) && (r.Download? || r.Confirm? || r.Put? || r.Visibility? || r.Delete? || r.Track?)
    ensures Carries(s, Step(s, r), d, id)
  {
  }

  lemma StepCarries(s: State, r: Request, d: Device, id: nat)
    requires Valid(s)
    ensures Carries(s, Step(s, r), d, id)
  {
    assert Carries(s, s, d, id);
    hide Valid, Carries, AddStep, Deliver, StampNow, StampAt, Compared, WriteRow;
    match r
    case Add(q) => AddCarries(s, q, d, id);
    case Incoming(device, x, content, _) => if x in s.rows { ExchangeCarries(s, device, x, content, None, d, id); }
    case Remote(device, x, content, _, _) =>
      if x in s.rows { ExchangeCarries(s, device, x, content, Seen(s, x, content), d, id); }
    case Push(device, x, _) => if x in s.rows { ExchangeCarries(s, device, x, "", None, d, id); }
    case _ => LocalCarries(s, r, d, id);
  }

  lemma {:induction false} RunCarries(s: State, rs: seq<Request>, d: Device, id: nat)
    requires Valid(s)
    ensures Carries(s, Run(s, rs), d, id)
    decreases |rs|
  {
    if rs != [] {
      ValidKept(s, rs[0]);
      StepCarries(s, rs[0], d, id);
      RunCarries(Step(s, rs[0]), rs[1..], d, id);
      hide Step, Valid;
    }
  }

  /** A save the device has stamped and then drops is not offered again, whatever the client
      lists, through any run of any requests, until its row is updated. */
  lemma DroppedStaysUnoffered(s: State, rs: seq<Request>, d: Device, id: nat,
                              library: seq<Saved>, scope: Option<seq<nat>>, clients: seq<ClientSave>)
    requires Valid(s) && id in s.rows && Current(s, d, id) && Listed(Run(s, rs), library)
    requires id in Run(s, rs).rows ==> Run(s, rs).rows[id].updatedAt == s.rows[id].updatedAt
    ensures var t := Run(s, rs);
            forall op | op in Missing(Query(library, scope, clients), StampsOf(t, d), clients) :: op.saveId != Some(id)
  {
    RunCarries(s, rs, d, id);
    var t := Run(s, rs);
    ListedIsSound(t, library, scope, clients);
    var rows := Query(library, scope, clients);
    assert id in t.rows ==> Current(t, d, id);
    forall op | op in Missing(rows, StampsOf(t, d), clients) ensures op.saveId != Some(id) {
      OfferedIsDue(rows, StampsOf(t, d), clients, op);
      var row :| Due(rows, StampsOf(t, d), clients, row) && op == Offer(row, DownloadIt);
      assert row in library;
    }
  }

  // ---- Carrying out a planned upload ----

  /** A planned slot upload goes through without a conflict exactly when the slot is new to
      the server or the device has a stamp on the slot's newest save: planning falls back to
      comparing timestamps where the upload itself insists on a stamp. */
  lemma PlannedUploadAccepted(s: State, d: Device, library: seq<Saved>, scope: Option<seq<nat>>,
                              clients: seq<ClientSave>, c: ClientSave, q: Upload)
    requires Valid(s) && Listed(s, library) && c in clients
    requires q.device == Some(d) && !q.overwrite && q.Slotted() && q.rom == c.rom && q.slot == c.slot
    requires ClientOperation(Newest(Query(library, scope, clients), c.Pairing()), StampsOf(s, d), c).action == UploadIt
    ensures var paired := Newest(Query(library, scope, clients), c.Pairing());
            Refused(s, q) <==> paired.Some? && paired.value.id !in StampsOf(s, d)
  {
    var rows, ids := Query(library, scope, clients), SlotIds(s.rows, q.rom, q.slot);
    var paired := Newest(rows, c.Pairing());
    SlotIsPaired(s, library, scope, clients, c, q);
    if paired.Some? {
      assert Current(s, d, paired.value.id) <==> paired.value.id in StampsOf(s, d);
    }
  }

  lemma SlotIsPaired(s: State, library: seq<Saved>, scope: Option<seq<nat>>,
                     clients: seq<ClientSave>, c: ClientSave, q: Upload)
    requires Valid(s) && Listed(s, library) && c in clients
    requires q.Slotted() && q.rom == c.rom && q.slot == c.slot
    ensures var paired, ids := Newest(Query(library, scope, clients), c.Pairing()), SlotIds(s.rows, q.rom, q.slot);
            && (paired.Some? <==> ids != {})
            && (paired.Some? ==> paired.value.id == NewestOf(s, ids) && paired.value == Snapshot(paired.value.id, s.rows[paired.value.id]))
  {
    var rows, ids := Query(library, scope, clients), SlotIds(s.rows, q.rom, q.slot);
    forall id | id in ids ensures Snapshot(id, s.rows[id]) in rows && Snapshot(id, s.rows[id]).Pairing() == c.Pairing() {
      assert Snapshot(id, s.rows[id]) in library;
    }
    var paired := Newest(rows, c.Pairing());
    if ids != {} {
      var newest := NewestOf(s, ids);
      var row := Snapshot(newest, s.rows[newest]);
      NewestIsLargest(rows, row);
      assert paired.value in library;
      assert paired.value.id in ids;
      assert IsNewest(s, ids, newest);
      assert SameTime(s.rows[paired.value.id], s.rows[newest]);
    } else if paired.Some? {
      if paired.value.id !in ids { assert false; }
    }
  }

  /** Of rows of a slot with the same latest time, the first in query order is the newest. */
  lemma {:induction false} FirstOfTheNewest(rows: seq<Saved>, i: nat)
    requires i < |rows|
    requires forall j | 0 <= j < |rows| && rows[j].Pairing() == rows[i].Pairing() ::
               rows[j].updatedAt <= rows[i].updatedAt && (j < i ==> rows[j].updatedAt < rows[i].updatedAt)
    ensures Newest(rows, rows[i].Pairing()) == Some(rows[i])
    decreases |rows|
  {
    var front := rows[..|rows| - 1];
    if i < |front| {
      assert front[i] == rows[i] && forall j | 0 <= j < |front| :: front[j] == rows[j];
      FirstOfTheNewest(front, i);
    } else if Newest(front, rows[i].Pairing()).Some? {
      var j :| 0 <= j < |front| && front[j] == Newest(front, rows[i].Pairing()).value;
      assert rows[j] == front[j];
    }
  }

  // ---- The scope of a negotiation ----

  /** Every operation that names a row is for a ROM of the scope or of the client's saves,
      whenever the request gives a scope. */
  lemma ScopeIsRespected(library: seq<Saved>, stamps: map<nat, Stamp>, scope: Option<seq<nat>>, clients: seq<ClientSave>,
                         op: Operation)
    requires op in Negotiated(Query(library, scope, clients), stamps, clients) && op.saveId.Some? && scope.Some?
    ensures op.rom in scope.value || exists i :: 0 <= i < |clients| && clients[i].rom == op.rom
  {
    var rows := Query(library, scope, clients);
    if op in ClientOperations(rows, stamps, clients) {
      var i :| 0 <= i < |clients| && op == ClientOperations(rows, stamps, clients)[i];
      assert clients[i].rom == op.rom;
    } else {
      DownloadOrigin(rows, stamps, Mentioned(rows, clients), KeyOrder(rows), op);
      var key :| key in KeyOrder(rows) && Yields(rows, stamps, Mentioned(rows, clients), key, op);
      assert Newest(rows, key).value in rows && Newest(rows, key).value.rom == op.rom;
    }
  }

  /** The newest slotted save of a ROM the request covers is dealt with: every client save of its
      slot is answered about it, and if there is none, it is offered unless the device untracked
      it or has it. */
  lemma CoveredIsConsidered(library: seq<Saved>, stamps: map<nat, Stamp>, scope: Option<seq<nat>>, clients: seq<ClientSave>,
                            row: Saved)
    requires TieFree(library) && DistinctIds(library) && row in library && row.slot.Some?
    requires forall x | x in library && x.rom == row.rom && x.slot == row.slot :: x == row || x.updatedAt < row.updatedAt
    requires scope.Some? ==> row.rom in scope.value || exists i :: 0 <= i < |clients| && clients[i].rom == row.rom
    ensures var rows := Query(library, scope, clients);
            && (forall i | 0 <= i < |clients| && clients[i].rom == row.rom && clients[i].slot == row.slot ::
                  Negotiated(rows, stamps, clients)[i].saveId == Some(row.id))
            && ((forall i | 0 <= i < |clients| :: clients[i].rom != row.rom || clients[i].slot != row.slot) ==>
                  (Offer(row, DownloadIt) in Negotiated(rows, stamps, clients) <==>
                   row.id !in stamps || (!stamps[row.id].untracked && stamps[row.id].at < row.updatedAt)))
  {
    var rows := Query(library, scope, clients);
    assert Eligible(row, scope, clients);
    assert row in rows && Leads(rows, row);
    NewestIsLeader(rows, row);
    forall i | 0 <= i < |clients| && clients[i].rom == row.rom && clients[i].slot == row.slot
      ensures Negotiated(rows, stamps, clients)[i].saveId == Some(row.id)
    {
      assert clients[i].Pairing() == row.Pairing();
      assert Negotiated(rows, stamps, clients)[i] == ClientOperation(Some(row), stamps, clients[i]);
    }
    if forall i | 0 <= i < |clients| :: clients[i].rom != row.rom || clients[i].slot != row.slot {
      UnlistedIsOffered(rows, stamps, clients, row);
    }
  }

  lemma UnlistedIsOffered(rows: seq<Saved>, stamps: map<nat, Stamp>, clients: seq<ClientSave>, row: Saved)
    requires TieFree(rows) && DistinctIds(rows) && Leads(rows, row)
    requires forall i | 0 <= i < |clients| :: clients[i].rom != row.rom || clients[i].slot != row.slot
    ensures Offer(row, DownloadIt) in Negotiated(rows, stamps, clients) <==>
            row.id !in stamps || (!stamps[row.id].untracked && stamps[row.id].at < row.updatedAt)
  {
    var op := Offer(row, DownloadIt);
    OfferedIsDue(rows, stamps, clients, op);
    assert !Lists(clients, row.Pairing());
    forall i | 0 <= i < |clients| ensures ClientOperations(rows, stamps, clients)[i] != op {
      var paired := Newest(rows, clients[i].Pairing());
      assert paired.Some? ==> paired.value.rom == clients[i].rom && paired.value.slot == clients[i].slot;
    }
    if x :| Due(rows, stamps, clients, x) && op == Offer(x, DownloadIt) { assert x.id == row.id; }
    hide Missing, ClientOperation;
  }

  // ---- What an operation says ----

  /** The answer about a client save: to upload it when the server has no save of its slot, nothing
      when the device untracked that save, and otherwise what comparing the two copies says, with
      the server's row spelled out. */
  lemma ClientAnswerMeans(rows: seq<Saved>, stamps: map<nat, Stamp>, clients: seq<ClientSave>, i: nat)
    requires i < |clients|
    ensures var c, op := clients[i], Negotiated(rows, stamps, clients)[i];
            match Newest(rows, Key(c.rom, c.slot))
            case None => op == Operation(UploadIt, c.rom, None, c.name, c.slot, c.emulator, None, None)
            case Some(row) =>
              && op.rom == row.rom && op.saveId == Some(row.id) && op.name == row.name
              && op.slot == row.slot && op.emulator == row.emulator
              && if row.id in stamps && stamps[row.id].untracked then
                   op.action == NoOp && op.serverAt == None && op.serverHash == None
                 else
                   && op.serverAt == Some(row.updatedAt) && op.serverHash == row.hash
                   && op.action == CompareSaveState(c.hash, c.updatedAt, row.hash, row.updatedAt,
                                                    if row.id in stamps then Some(stamps[row.id].at) else None)
  {
    assert Negotiated(rows, stamps, clients)[i] == ClientOperations(rows, stamps, clients)[i];
    hide Newest, Missing, CompareSaveState;
  }

  /** An offer names the save it offers, field by field. */
  lemma OfferMeans(rows: seq<Saved>, stamps: map<nat, Stamp>, clients: seq<ClientSave>, op: Operation)
    requires op in Missing(rows, stamps, clients)
    ensures exists row :: row in rows && op == Operation(DownloadIt, row.rom, Some(row.id), row.name, row.slot, row.emulator,
                                                         Some(row.updatedAt), row.hash)
  {
    DownloadOrigin(rows, stamps, Mentioned(rows, clients), KeyOrder(rows), op);
    var key :| key in KeyOrder(rows) && Yields(rows, stamps, Mentioned(rows, clients), key, op);
    assert Newest(rows, key).value in rows;
  }
}
