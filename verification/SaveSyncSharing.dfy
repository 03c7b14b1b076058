/** Bytes and rows when rows may share a file: which requests leave every row's path holding
    what the row says, exactly, and over whole runs. */
module SaveSyncSharing {
  import opened Common
  import opened SaveSync
  import opened SaveSyncProofs

  /** Every other row on the path of `id` is content with these bytes. */
  predicate Accords(s: State, id: nat, content: Content)
    requires id in s.rows
  {
    forall x | x in s.rows && x != id && s.rows[x].Location() == s.rows[id].Location() :: s.rows[x].hash == Digest(content)
  }

  /** No surviving row is on the target path with other content, or on a dropped row's path. */
  predicate SparesUpload(s: State, q: Upload) {
    var t := Store(s, q);
    forall x | x in t.rows && x !in Dropped(t, q) ::
      && (t.rows[x].Location() == q.Target() ==> t.rows[x].hash == Digest(q.content))
      && t.rows[x].Location() !in Locations(t.rows, Dropped(t, q))
  }

  /** What a request asks of the rows so that no row loses its bytes. */
  predicate SparesFiles(s: State, r: Request)
    requires Valid(s)
  {
    match r
    case Add(q) => Refused(s, q) || (if Duplicate(s, q) then At(s.rows, q.Target()) == {} else SparesUpload(s, q))
    case Put(_, id, file) => id in s.rows && file.Some? ==> Accords(s, id, file.value)
    case Delete(id) => id in s.rows ==> At(s.rows, s.rows[id].Location()) == {id}
    case Incoming(d, id, content, mtime) => Overwrites(s, d, id, content, mtime) ==> Accords(s, id, content)
    case Remote(d, id, content, mtime, _) => Overwrites(s, d, id, content, mtime) ==> Accords(s, id, content)
    case _ => true
  }

  predicate Overwrites(s: State, d: Device, id: nat, content: Content, mtime: int) {
    id in s.rows && s.rows[id].slot.Some? && Compared(s, d, id, content, mtime) == UploadIt
  }

  predicate Backed(s: State, id: nat)
    requires id in s.rows
  {
    s.rows[id].Location() in s.files && Digest(s.files[s.rows[id].Location()]) == s.rows[id].hash
  }

  lemma AgreeIsBacked(s: State)
    ensures Agree(s) <==> forall id | id in s.rows :: Backed(s, id)
  {
  }

  // ---- Uploads ----

  /** Storing an upload drops no bytes another row uses: a row is left without its own exactly
      when it is on the target path with other content. */
  lemma StoredBacked(s: State, q: Upload, x: nat)
    requires Agree(s) && x in Store(s, q).rows
    ensures Backed(Store(s, q), x) <==>
            (Store(s, q).rows[x].Location() == q.Target() ==> Store(s, q).rows[x].hash == Digest(q.content))
  {
    var t, id := Store(s, q), StoredId(s, q);
    NewRowLocation(s, q);
    if x != id {
      assert t.rows[x] == s.rows[x] && Backed(s, x);
      if Overwritten(s, q).Some? && s.rows[x].Location() == s.rows[id].Location() {
        assert x in At(s.rows, s.rows[id].Location()) - {id};
      }
      assert s.rows[x].Location() !in StaleBytes(s, q);
    } else {
      assert q.Target() !in StaleBytes(s, q);
    }
  }

  lemma RemovedBacked(t: State, ids: set<nat>, x: nat)
    requires x in t.rows && x !in ids
    ensures x in Remove(t, ids).rows
    ensures Backed(Remove(t, ids), x) <==> Backed(t, x) && t.rows[x].Location() !in Locations(t.rows, ids)
  {
  }

  lemma UploadAgreesExactly(s: State, q: Upload)
    requires Valid(s) && Agree(s) && !Refused(s, q) && !Duplicate(s, q)
    ensures Agree(AddStep(s, q)) <==> SparesUpload(s, q)
  {
    var t := Store(s, q);
    var u := Remove(t, Dropped(t, q));
    assert AddStep(s, q) == Cleanup(t, q);
    CleanupDrops(t, q);
    AgreeIsBacked(u);
    forall x | x in t.rows && x !in Dropped(t, q)
      ensures x in u.rows
      ensures Backed(u, x) <==> (t.rows[x].Location() == q.Target() ==> t.rows[x].hash == Digest(q.content))
                                && t.rows[x].Location() !in Locations(t.rows, Dropped(t, q))
    {
      StoredBacked(s, q, x);
      RemovedBacked(t, Dropped(t, q), x);
    }
    assert forall x | x in u.rows :: x in t.rows && x !in Dropped(t, q);
    hide Valid, Agree, Store, Dropped, Backed, Refused, Duplicate, Cleanup, AddStep;
  }

  // ---- The other requests ----

  lemma RewrittenAgreesExactly(s: State, id: nat, content: Content, t: State)
    requires Agree(s) && id in s.rows
    requires t.rows == WriteRow(s, id, content).rows && t.files == WriteRow(s, id, content).files
    ensures Agree(t) <==> Accords(s, id, content)
  {
    forall x | x in s.rows ensures Backed(t, x) <==>
      (x != id && s.rows[x].Location() == s.rows[id].Location() ==> s.rows[x].hash == Digest(content))
    {
      assert Backed(s, x);
    }
    AgreeIsBacked(t);
  }

  lemma DeletedAgreesExactly(s: State, id: nat)
    requires Agree(s) && id in s.rows
    ensures Agree(Remove(s, {id})) <==> At(s.rows, s.rows[id].Location()) == {id}
  {
    var t, p := Remove(s, {id}), s.rows[id].Location();
    assert Locations(s.rows, {id}) == {p};
    forall x | x in s.rows && x != id ensures x in t.rows && (Backed(t, x) <==> s.rows[x].Location() != p) {
      assert Backed(s, x);
      RemovedBacked(s, {id}, x);
    }
    AgreeIsBacked(t);
    if At(s.rows, p) == {id} {
      forall x | x in t.rows ensures Backed(t, x) { assert x !in At(s.rows, p); }
    } else {
      assert id in At(s.rows, p);
      var x :| x in At(s.rows, p) && x != id;
    }
  }

  lemma DuplicateAgreesExactly(s: State, q: Upload)
    requires Valid(s) && Agree(s) && !Refused(s, q) && Duplicate(s, q)
    ensures Agree(AddStep(s, q)) <==> At(s.rows, q.Target()) == {}
  {
    var t := AddStep(s, q);
    if At(s.rows, q.Target()) == {} {
      NobodyAt(s, q.Target());
    } else {
      var x :| x in At(s.rows, q.Target());
      assert x in t.rows && t.rows[x].Location() !in t.files;
    }
  }

  lemma SameFiles(s: State, t: State)
    requires Agree(s) && t.files == s.files
    requires t.rows.Keys <= s.rows.Keys
    requires forall x | x in t.rows :: t.rows[x].Location() == s.rows[x].Location() && t.rows[x].hash == s.rows[x].hash
    ensures Agree(t)
  {
  }

  lemma ExchangedAgreesExactly(s: State, d: Device, id: nat, content: Content, mtime: int)
    requires Valid(s) && Agree(s)
    ensures Agree(Step(s, Incoming(d, id, content, mtime))) <==> SparesFiles(s, Incoming(d, id, content, mtime))
    ensures forall transferred :: Agree(Step(s, Remote(d, id, content, mtime, transferred)))
                                  <==> SparesFiles(s, Incoming(d, id, content, mtime))
  {
    if Overwrites(s, d, id, content, mtime) {
      RewrittenAgreesExactly(s, id, content, Step(s, Incoming(d, id, content, mtime)));
      hide Accords, Valid, Agree;
    } else {
      SameFiles(s, Step(s, Incoming(d, id, content, mtime)));
      forall transferred ensures Agree(Step(s, Remote(d, id, content, mtime, transferred))) {
        SameFiles(s, Step(s, Remote(d, id, content, mtime, transferred)));
      }
    }
  }

  /** Every row's path goes on holding what the row says exactly when the request spares the
      files, whether or not rows share them. */
  lemma StepAgreesExactly(s: State, r: Request)
    requires Valid(s) && Agree(s)
    ensures Agree(Step(s, r)) <==> SparesFiles(s, r)
  {
    hide Valid, Agree, AddStep, Refused, Duplicate, SparesUpload, Accords;
    match r
    case Add(q) =>
      if !Refused(s, q) {
        if Duplicate(s, q) { DuplicateAgreesExactly(s, q); } else { UploadAgreesExactly(s, q); }
      } else {
        assert AddStep(s, q) == s by { RefusedIsNothing(s, q); }
      }
    case Put(_, id, file) =>
      if id in s.rows && file.Some? {
        RewrittenAgreesExactly(s, id, file.value, Step(s, r));
      } else {
        SameFiles(s, Step(s, r));
      }
    case Delete(id) => if id in s.rows { DeletedAgreesExactly(s, id); }
    case Incoming(d, id, content, mtime) => ExchangedAgreesExactly(s, d, id, content, mtime);
    case Remote(d, id, content, mtime, _) => ExchangedAgreesExactly(s, d, id, content, mtime);
    case _ => SameFiles(s, Step(s, r));
  }

  lemma RefusedIsNothing(s: State, q: Upload)
    requires Valid(s) && Refused(s, q)
    ensures AddStep(s, q) == s
  {
  }

  // ---- Whole runs ----

  ghost predicate AlwaysAgrees(s: State, rs: seq<Request>)
    requires Valid(s)
    decreases |rs|
  {
    Agree(s) && (rs == [] || (ValidKept(s, rs[0]); AlwaysAgrees(Step(s, rs[0]), rs[1..])))
  }

  ghost predicate AlwaysSpares(s: State, rs: seq<Request>)
    requires Valid(s)
    decreases |rs|
  {
    rs == [] || (ValidKept(s, rs[0]); SparesFiles(s, rs[0]) && AlwaysSpares(Step(s, rs[0]), rs[1..]))
  }

  lemma {:induction false} AgreesFrom(s: State, rs: seq<Request>)
    requires Valid(s) && Agree(s)
    ensures AlwaysAgrees(s, rs) <==> AlwaysSpares(s, rs)
    decreases |rs|
  {
    if rs != [] {
      ValidKept(s, rs[0]);
      StepAgreesExactly(s, rs[0]);
      if Agree(Step(s, rs[0])) { AgreesFrom(Step(s, rs[0]), rs[1..]); }
    }
    hide Valid, Agree, Step, SparesFiles;
  }

  /** From an empty server, every row's path holds bytes hashing to its digest at every moment
      of a run if and only if every request of it spares the files. */
  lemma BytesAndRowsAgreeExactly(rs: seq<Request>)
    ensures Valid(EMPTY) && (AlwaysAgrees(EMPTY, rs) <==> AlwaysSpares(EMPTY, rs))
  {
    AgreesFrom(EMPTY, rs);
  }
}
