/** When a confirmation that comes some time after the download is still true. */
module SaveSyncConfirmations {
  import opened Common
  import opened SaveSync
  import opened SaveSyncProofs
  import opened SaveSyncSharing
  import opened SaveSyncStamps

  datatype Write = Write(writer: Option<Device>, content: Content)

  /** The content a request gives row `id`, and the device it is known to come from. */
  function WriteOf(s: State, r: Request, id: nat): Option<Write>
    requires Valid(s)
  {
    match r
    case Add(q) => if AddOutcome(s, q) == Stored(id) then Some(Write(q.device, q.content)) else None
    case Put(w, x, file) => if x == id && x in s.rows && file.Some? then Some(Write(w, file.value)) else None
    case Incoming(d, x, content, mtime) =>
      if x == id && Overwrites(s, d, x, content, mtime) then Some(Write(Some(d), content)) else None
    case Remote(d, x, content, mtime, _) =>
      if x == id && Overwrites(s, d, x, content, mtime) then Some(Write(Some(d), content)) else None
    case _ => None
  }

  /** Somebody else, or nobody known, gives the row other content. */
  predicate Outdates(s: State, r: Request, d: Device, id: nat)
    requires Valid(s) && id in s.rows
  {
    var w := WriteOf(s, r, id);
    w.Some? && w.value.writer != Some(d) && Digest(w.value.content) != s.rows[id].hash
  }

  /** The row whose bytes the request sends to `d`. */
  function ServedTo(s: State, r: Request, d: Device): Option<nat> {
    match r
    case Download(reader, id, _, _) => if reader == Some(d) && id in s.rows then Some(id) else None
    case Incoming(e, _, _, _) => if e == d then Delivered(s, r) else None
    case Remote(e, _, _, _, _) => if e == d then Delivered(s, r) else None
    case Push(e, _, _) => if e == d then Delivered(s, r) else None
    case _ => None
  }

  /** The device is sent bytes the row does not speak of. */
  predicate Misserves(s: State, r: Request, d: Device, id: nat)
    requires id in s.rows
  {
    ServedTo(s, r, d) == Some(id) && !Matches(s, id)
  }

  lemma AddHoldsExactly(s: State, q: Upload, d: Device, id: nat)
    requires Valid(s) && id in s.rows && Holds(s, d, id) && id in AddStep(s, q).rows
    ensures Holds(AddStep(s, q), d, id) <==> !Outdates(s, Add(q), d, id)
  {
    NewRowLocation(s, q);
    hide Valid, Refused, Duplicate, Overwritten, Expired;
  }

  lemma RewriteHolds(s: State, w: Device, x: nat, content: Content, d: Device, id: nat)
    requires x in s.rows && id in s.rows && Holds(s, d, id)
    ensures Holds(StampNow(WriteRow(s, x, content), w, x, Some(content)), d, id) <==>
            !(x == id && w != d && Digest(content) != s.rows[id].hash)
    ensures Holds(Deliver(s, w, x), d, id) <==> !(x == id && w == d && !Matches(s, id))
    ensures Holds(StampNow(s, w, x, Seen(s, x, content)), d, id)
  {
  }

  lemma LocalHoldsExactly(s: State, r: Request, d: Device, id: nat)
    requires Valid(s) && id in s.rows && Holds(s, d, id) && id in Step(s, r).rows
    requires r.Download? || r.Confirm? || r.Put? || r.Visibility? || r.Delete? || r.Track?
    ensures Holds(Step(s, r), d, id) <==> !Outdates(s, r, d, id) && !Misserves(s, r, d, id)
  {
    hide Valid;
  }

  /** A device that holds a row's content goes on holding it exactly when the request neither
      gives the row other content from elsewhere nor sends the device other bytes for it. */
  lemma StepHoldsExactly(s: State, r: Request, d: Device, id: nat)
    requires Valid(s) && id in s.rows && Holds(s, d, id) && id in Step(s, r).rows
    ensures Holds(Step(s, r), d, id) <==> !Outdates(s, r, d, id) && !Misserves(s, r, d, id)
  {
    hide Valid, Holds, AddStep, StampNow, WriteRow, Deliver, Compared, Matches;
    match r
    case Add(q) => AddHoldsExactly(s, q, d, id);
    case Incoming(w, x, content, _) => if x in s.rows { RewriteHolds(s, w, x, content, d, id); }
    case Remote(w, x, content, _, _) => if x in s.rows { RewriteHolds(s, w, x, content, d, id); }
    case Push(w, x, _) => if x in s.rows { RewriteHolds(s, w, x, "", d, id); }
    case _ => LocalHoldsExactly(s, r, d, id);
  }

  /** No request of the run outdates what `d` has of the row. */
  ghost predicate NeverOutdates(s: State, rs: seq<Request>, d: Device, id: nat)
    requires Valid(s)
    decreases |rs|
  {
    rs == [] || (ValidKept(s, rs[0]);
                 (id in s.rows ==> !Outdates(s, rs[0], d, id)) && NeverOutdates(Step(s, rs[0]), rs[1..], d, id))
  }

  /** Ids are not given out twice. */
  lemma GoneStaysGone(s: State, r: Request, id: nat)
    requires Valid(s) && id < s.nextId && id !in s.rows
    ensures id !in Step(s, r).rows && id < Step(s, r).nextId
  {
    if r.Add? { UploadKeepsGone(s, r.upload, id); }
    hide AddStep, Compared, Valid;
  }

  lemma UploadKeepsGone(s: State, q: Upload, id: nat)
    requires Valid(s) && id < s.nextId && id !in s.rows
    ensures id !in AddStep(s, q).rows && id < AddStep(s, q).nextId
  {
    hide Valid, Refused, Duplicate, Overwritten, StaleBytes, Expired;
  }

  lemma IdsGrow(s: State, r: Request)
    requires Valid(s)
    ensures s.nextId <= Step(s, r).nextId
  {
    hide Refused, Duplicate;
  }

  ghost predicate NeverMisserves(s: State, rs: seq<Request>, d: Device, id: nat)
    requires Valid(s)
    decreases |rs|
  {
    rs == [] || (ValidKept(s, rs[0]);
                 (id in s.rows ==> !Misserves(s, rs[0], d, id)) && NeverMisserves(Step(s, rs[0]), rs[1..], d, id))
  }

  lemma {:induction false} HoldsAlong(s: State, rs: seq<Request>, d: Device, id: nat)
    requires Valid(s) && NeverOutdates(s, rs, d, id) && NeverMisserves(s, rs, d, id)
    requires id < s.nextId && (id in s.rows ==> Holds(s, d, id))
    ensures id in Run(s, rs).rows ==> Holds(Run(s, rs), d, id)
    decreases |rs|
  {
    if rs != [] {
      var t := Step(s, rs[0]);
      ValidKept(s, rs[0]);
      IdsGrow(s, rs[0]);
      if id !in s.rows {
        GoneStaysGone(s, rs[0], id);
      } else if id in t.rows {
        StepHoldsExactly(s, rs[0], d, id);
      }
      HoldsAlong(t, rs[1..], d, id);
    }
    hide Valid, Step, Holds, Outdates, Misserves;
  }

  /** The device was really sent what the row says. */
  predicate Serves(s: State, id: nat)
    requires id in s.rows
  {
    s.rows[id].Location() in s.files && Matches(s, id)
  }

  lemma ServingHolds(s: State, d: Device, id: nat, optimistic: bool, owner: bool)
    requires Valid(s) && id in s.rows && Serves(s, id)
    ensures var served := Step(s, Download(Some(d), id, optimistic, owner));
            Valid(served) && id in served.rows && Holds(served, d, id) && id < served.nextId
            && (Sound(s) ==> Sound(served))
  {
    ValidKept(s, Download(Some(d), id, optimistic, owner));
    if Sound(s) { StepVouchesExactly(s, Download(Some(d), id, optimistic, owner)); }
    hide Sound;
  }

  /** However late a confirmation comes, every stamp still vouches for held content, if since the
      device was served nobody else gave the row other content and it was sent no other bytes;
      whatever becomes of other files. */
  lemma LateConfirmationVouches(s: State, d: Device, id: nat, optimistic: bool, owner: bool, rs: seq<Request>)
    requires Valid(s) && Sound(s) && id in s.rows && Serves(s, id)
    requires var served := Step(s, Download(Some(d), id, optimistic, owner));
             && Valid(served) && AlwaysTruthful(served, rs)
             && NeverOutdates(served, rs, d, id) && NeverMisserves(served, rs, d, id)
    ensures var served := Step(s, Download(Some(d), id, optimistic, owner));
            Sound(Run(served, rs)) && Sound(Step(Run(served, rs), Confirm(d, id)))
  {
    var served := Step(s, Download(Some(d), id, optimistic, owner));
    ServingHolds(s, d, id, optimistic, owner);
    VouchesFrom(served, rs);
    HoldsAlong(served, rs, d, id);
    StepVouchesExactly(Run(served, rs), Confirm(d, id));
    hide Valid, Sound, Step, Run, Holds;
  }

  /** While bytes and rows agree nobody is misserved. */
  lemma {:induction false} CleanNeverMisserves(s: State, rs: seq<Request>, d: Device, id: nat)
    requires Inv(s) && CleanRun(s, rs)
    ensures NeverMisserves(s, rs, d, id)
    decreases |rs|
  {
    if rs != [] {
      StepExactly(s, rs[0]);
      CleanNeverMisserves(Step(s, rs[0]), rs[1..], d, id);
      if id in s.rows { assert Matches(s, id); }
    }
    hide Valid, Apart, Sound, Step, Clean;
  }

  /** A confirmation keeps the whole invariant, however late it comes, if since the device was
      served the row nobody else gave it other content. */
  lemma ConfirmationAfterServing(s: State, d: Device, id: nat, optimistic: bool, owner: bool, rs: seq<Request>)
    requires Inv(s) && id in s.rows
    requires var served := Step(s, Download(Some(d), id, optimistic, owner));
             Valid(served) && CleanRun(served, rs) && NeverOutdates(served, rs, d, id)
    ensures var served := Step(s, Download(Some(d), id, optimistic, owner));
            Inv(Run(served, rs)) && Inv(Step(Run(served, rs), Confirm(d, id)))
  {
    var served := Step(s, Download(Some(d), id, optimistic, owner));
    DownloadKeeps(s, Download(Some(d), id, optimistic, owner));
    ServingHolds(s, d, id, optimistic, owner);
    CleanNeverMisserves(served, rs, d, id);
    HoldsAlong(served, rs, d, id);
    RunKeeps(served, rs);
    StepExactly(Run(served, rs), Confirm(d, id));
    hide Valid, Sound, Agree, Apart, Step, Run, Holds;
  }
}
