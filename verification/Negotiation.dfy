/** Sync negotiation: pair a client's saves with the newest server row of each
    (ROM, slot), and list what either side has to move. */
module Negotiation {
  import opened Common
  import opened SaveSync

  datatype Key = Key(rom: nat, slot: Option<string>)

  datatype Saved = Saved(id: nat, rom: nat, slot: Option<string>, emulator: string, name: string,
                         hash: Option<Digest>, updatedAt: int)
  {
    function Pairing(): Key { Key(rom, slot) }
  }

  datatype ClientSave = ClientSave(rom: nat, slot: Option<string>, emulator: string, name: string,
                                   hash: Option<Digest>, updatedAt: int)
  {
    function Pairing(): Key { Key(rom, slot) }
  }

  datatype Operation = Operation(action: Action, rom: nat, saveId: Option<nat>, name: string,
                                 slot: Option<string>, emulator: string,
                                 serverAt: Option<int>, serverHash: Option<Digest>)

  // ---- What the query returns ----

  predicate Lists(clients: seq<ClientSave>, key: Key) {
    exists i :: 0 <= i < |clients| && clients[i].Pairing() == key
  }

  /** Null-slot rows are archival; an explicit scope is widened with the client's ROMs. */
  predicate Eligible(row: Saved, scope: Option<seq<nat>>, clients: seq<ClientSave>) {
    && row.slot.Some?
    && (scope.Some? ==> row.rom in scope.value || exists i :: 0 <= i < |clients| && clients[i].rom == row.rom)
  }

  function Query(library: seq<Saved>, scope: Option<seq<nat>>, clients: seq<ClientSave>): (rows: seq<Saved>)
    ensures forall r :: r in rows <==> r in library && Eligible(r, scope, clients)
  {
    if library == [] then []
    else
      var rest := Query(library[..|library| - 1], scope, clients);
      var last := library[|library| - 1];
      assert library == library[..|library| - 1] + [last];
      if Eligible(last, scope, clients) then rest + [last] else rest
  }

  /** The row a left-to-right scan keeps for a key: later rows win only if strictly newer. */
  function Newest(rows: seq<Saved>, key: Key): (r: Option<Saved>)
    ensures r.Some? ==> r.value in rows && r.value.Pairing() == key
  {
    if rows == [] then None
    else
      var kept := Newest(rows[..|rows| - 1], key);
      var last := rows[|rows| - 1];
      if last.Pairing() == key && (kept.None? || last.updatedAt > kept.value.updatedAt) then Some(last) else kept
  }

  /** Keys in the order their first row appears, which is the order a dictionary keeps. */
  function KeyOrder(rows: seq<Saved>): (keys: seq<Key>)
    ensures forall i, j | 0 <= i < j < |keys| :: keys[i] != keys[j]
    ensures forall k | k in keys :: Newest(rows, k).Some?
  {
    if rows == [] then []
    else
      var before := KeyOrder(rows[..|rows| - 1]);
      var key := rows[|rows| - 1].Pairing();
      if key in before then before else before + [key]
  }

  lemma {:induction false} KeyOrderComplete(rows: seq<Saved>, key: Key)
    requires Newest(rows, key).Some?
    ensures key in KeyOrder(rows)
  {
    if rows[|rows| - 1].Pairing() != key {
      KeyOrderComplete(rows[..|rows| - 1], key);
    }
  }

  // ---- The operations ----

  function Offer(row: Saved, action: Action): Operation {
    Operation(action, row.rom, Some(row.id), row.name, row.slot, row.emulator, Some(row.updatedAt), row.hash)
  }

  /** What the client is told about one of its saves, given the row it is paired with. */
  function ClientOperation(paired: Option<Saved>, stamps: map<nat, Stamp>, c: ClientSave): Operation {
    match paired
    case None => Operation(UploadIt, c.rom, None, c.name, c.slot, c.emulator, None, None)
    case Some(row) =>
      if row.id in stamps && stamps[row.id].untracked then
        Operation(NoOp, row.rom, Some(row.id), row.name, row.slot, row.emulator, None, None)
      else
        Offer(row, CompareSaveState(c.hash, c.updatedAt, row.hash, row.updatedAt,
                                    if row.id in stamps then Some(stamps[row.id].at) else None))
  }

  function ClientOperations(rows: seq<Saved>, stamps: map<nat, Stamp>, clients: seq<ClientSave>): (ops: seq<Operation>)
    ensures |ops| == |clients|
  {
    seq(|clients|, i requires 0 <= i < |clients| => ClientOperation(Newest(rows, clients[i].Pairing()), stamps, clients[i]))
  }

  /** The ids of the rows the client's saves were paired with. */
  function Mentioned(rows: seq<Saved>, clients: seq<ClientSave>): set<nat> {
    if clients == [] then {}
    else Mentioned(rows, clients[..|clients| - 1]) + IdOf(Newest(rows, clients[|clients| - 1].Pairing()))
  }

  function IdOf(row: Option<Saved>): set<nat> {
    if row.Some? then {row.value.id} else {}
  }

  /** A row the client did not list is offered unless it is untracked, or unchanged since
      the device last synced it: then the client deleted it on purpose. */
  predicate Wanted(row: Saved, stamps: map<nat, Stamp>) {
    row.id !in stamps || (!stamps[row.id].untracked && row.updatedAt > stamps[row.id].at)
  }

  function Downloads(rows: seq<Saved>, stamps: map<nat, Stamp>, mentioned: set<nat>, keys: seq<Key>): seq<Operation>
    requires forall k | k in keys :: Newest(rows, k).Some?
  {
    if keys == [] then []
    else
      var row := Newest(rows, keys[|keys| - 1]).value;
      Downloads(rows, stamps, mentioned, keys[..|keys| - 1]) +
      (if row.id !in mentioned && Wanted(row, stamps) then [Offer(row, DownloadIt)] else [])
  }

  function Missing(rows: seq<Saved>, stamps: map<nat, Stamp>, clients: seq<ClientSave>): seq<Operation> {
    Downloads(rows, stamps, Mentioned(rows, clients), KeyOrder(rows))
  }

  function Negotiated(rows: seq<Saved>, stamps: map<nat, Stamp>, clients: seq<ClientSave>): seq<Operation> {
    ClientOperations(rows, stamps, clients) + Missing(rows, stamps, clients)
  }

  function CountOf(ops: seq<Operation>, action: Action): nat {
    if ops == [] then 0
    else CountOf(ops[..|ops| - 1], action) + (if ops[|ops| - 1].action == action then 1 else 0)
  }

  // ---- The request ----

  datatype Response = Response(operations: seq<Operation>, uploads: nat, downloads: nat, conflicts: nat,
                               noOps: nat, planned: nat)

  function Lookup(saves: map<Key, Saved>, key: Key): Option<Saved> {
    if key in saves then Some(saves[key]) else None
  }

  /** The dictionary holds, for every key, the row a scan would keep. */
  ghost predicate Indexes(saves: map<Key, Saved>, rows: seq<Saved>) {
    forall k :: Lookup(saves, k) == Newest(rows, k)
  }

  method Negotiate(library: seq<Saved>, stamps: map<nat, Stamp>, scope: Option<seq<nat>>, clients: seq<ClientSave>)
    returns (r: Response)
    ensures r.operations == Negotiated(Query(library, scope, clients), stamps, clients)
    ensures r.uploads == CountOf(r.operations, UploadIt) && r.downloads == CountOf(r.operations, DownloadIt)
    ensures r.conflicts == CountOf(r.operations, Conflict) && r.noOps == CountOf(r.operations, NoOp)
    ensures r.planned + r.noOps == |r.operations|
  {
    ghost var rows := Query(library, scope, clients);
    var saves, order := NewestPerKey(library, scope, clients);
    var ops, matched := ClientPass(saves, stamps, clients, rows);
    var missing := MissingPass(saves, order, stamps, matched, rows);
    ops := ops + missing;
    EveryActionCounted(ops);
    var u, d, c, n := CountOf(ops, UploadIt), CountOf(ops, DownloadIt), CountOf(ops, Conflict), CountOf(ops, NoOp);
    r := Response(ops, u, d, c, n, u + d + c);
  }

  /** The newest row of every (ROM, slot) the query returns, with the keys in dictionary order. */
  method NewestPerKey(library: seq<Saved>, scope: Option<seq<nat>>, clients: seq<ClientSave>)
    returns (saves: map<Key, Saved>, order: seq<Key>)
    ensures order == KeyOrder(Query(library, scope, clients)) && Indexes(saves, Query(library, scope, clients))
  {
    saves, order := map[], [];
    ghost var rows: seq<Saved> := [];
    assert library[..0] == [];
    hide Eligible;
    for i := 0 to |library|
      invariant rows == Query(library[..i], scope, clients)
      invariant order == KeyOrder(rows) && Indexes(saves, rows)
    {
      var save := library[i];
      assert library[..i + 1][..i] == library[..i] && library[..i + 1][i] == save;
      if Eligible(save, scope, clients) {
        saves, order := KeepNewer(saves, order, save, rows);
        rows := rows + [save];
      }
    }
    assert library[..|library|] == library;
  }

  method KeepNewer(saves: map<Key, Saved>, order: seq<Key>, save: Saved, ghost rows: seq<Saved>)
    returns (saves': map<Key, Saved>, order': seq<Key>)
    requires order == KeyOrder(rows) && Indexes(saves, rows)
    ensures order' == KeyOrder(rows + [save]) && Indexes(saves', rows + [save])
  {
    saves', order' := saves, order;
    var key := save.Pairing();
    assert (rows + [save])[..|rows|] == rows;
    assert Lookup(saves, key) == Newest(rows, key);
    if key !in saves {
      saves', order' := saves[key := save], order + [key];
    } else {
      KeyOrderComplete(rows, key);
      if save.updatedAt > saves[key].updatedAt {
        saves' := saves[key := save];
      }
    }
    forall k ensures Lookup(saves', k) == Newest(rows + [save], k) {
      assert Lookup(saves, k) == Newest(rows, k);
    }
  }

  method ClientPass(saves: map<Key, Saved>, stamps: map<nat, Stamp>, clients: seq<ClientSave>, ghost rows: seq<Saved>)
    returns (ops: seq<Operation>, matched: set<nat>)
    requires Indexes(saves, rows)
    ensures ops == ClientOperations(rows, stamps, clients) && matched == Mentioned(rows, clients)
  {
    ops, matched := [], {};
    for i := 0 to |clients|
      invariant |ops| == i
      invariant forall k | 0 <= k < i :: ops[k] == ClientOperation(Newest(rows, clients[k].Pairing()), stamps, clients[k])
      invariant matched == Mentioned(rows, clients[..i])
    {
      var c := clients[i];
      assert clients[..i + 1][..i] == clients[..i] && clients[..i + 1][i] == c;
      assert Lookup(saves, c.Pairing()) == Newest(rows, c.Pairing());
      if c.Pairing() !in saves {
        ops := ops + [Operation(UploadIt, c.rom, None, c.name, c.slot, c.emulator, None, None)];
        continue;
      }
      var row := saves[c.Pairing()];
      matched := matched + {row.id};
      if row.id in stamps && stamps[row.id].untracked {
        ops := ops + [Operation(NoOp, row.rom, Some(row.id), row.name, row.slot, row.emulator, None, None)];
        continue;
      }
      var action := CompareSaveState(c.hash, c.updatedAt, row.hash, row.updatedAt,
                                     if row.id in stamps then Some(stamps[row.id].at) else None);
      ops := ops + [Offer(row, action)];
    }
    assert clients[..|clients|] == clients;
  }

  method MissingPass(saves: map<Key, Saved>, order: seq<Key>, stamps: map<nat, Stamp>, matched: set<nat>,
                     ghost rows: seq<Saved>)
    returns (ops: seq<Operation>)
    requires order == KeyOrder(rows) && Indexes(saves, rows)
    ensures ops == Downloads(rows, stamps, matched, KeyOrder(rows))
  {
    ops := [];
    hide KeyOrder, Newest;
    for j := 0 to |order|
      invariant ops == Downloads(rows, stamps, matched, order[..j])
    {
      assert order[..j + 1][..j] == order[..j] && order[..j + 1][j] == order[j];
      assert order[j] in KeyOrder(rows) && Lookup(saves, order[j]) == Newest(rows, order[j]);
      var row := saves[order[j]];
      if row.id in matched || (row.id in stamps && stamps[row.id].untracked) {
        continue;
      }
      if row.id in stamps {
        if row.updatedAt <= stamps[row.id].at {
          continue;
        }
        ops := ops + [Offer(row, DownloadIt)];
      } else {
        ops := ops + [Offer(row, DownloadIt)];
      }
    }
    assert order[..|order|] == order;
  }

  lemma {:induction false} EveryActionCounted(ops: seq<Operation>)
    ensures CountOf(ops, UploadIt) + CountOf(ops, DownloadIt) + CountOf(ops, Conflict) + CountOf(ops, NoOp) == |ops|
  {
    if ops != [] { EveryActionCounted(ops[..|ops| - 1]); }
  }
}
