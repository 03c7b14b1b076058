/** Several workers promoting the same ROM at once: the promotion lock is per process, so
    their filesystem operations interleave. Each operation is one step and any may raise. */
module PromotionRaces {
  import opened Common
  import opened Promotion
  import opened PromotionProofs

  /** Where a worker stands in a promotion. */
  datatype Phase =
    | Checking
    | Staging // extensionless: the file steps aside first
    | Making
    | Placing
    | Recording
    | Undoing(moved: bool)
    | Dropping(back: bool)
    | Deleting(back: bool) // saw an empty folder, has not removed it yet
    | Returning
    | Finished

  datatype World = World(fs: Disk, converted: bool, workers: seq<Phase>)

  function At(w: World, i: nat, phase: Phase, fs: Disk): World
    requires i < |w.workers|
  {
    w.(fs := fs, workers := w.workers[i := phase])
  }

  function Try(w: World, i: nat, raises: bool, outcome: Option<Disk>, done: Phase, failed: Phase): World
    requires i < |w.workers|
  {
    if raises || outcome.None? then At(w, i, failed, w.fs) else At(w, i, done, outcome.value)
  }

  function Afterwards(back: bool): Phase { if back then Returning else Finished }

  /** One operation of worker `i`. The look at the folder and its recursive removal are two. */
  function Step(w: World, rom: Rom, i: nat, raises: bool): World
    requires i < |w.workers|
  {
    var aside := rom.Extensionless();
    var lone := if aside then rom.Staged() else rom.Origin();
    match w.workers[i]
    case Checking => At(w, i, if Collides(w.fs, rom) then Finished else if aside then Staging else Making, w.fs)
    case Staging => Try(w, i, raises, Move(w.fs, rom.Origin(), rom.Staged()), Making, Undoing(false))
    case Making => Try(w, i, raises, MakeDirectory(w.fs, rom.Dest()), Placing, Undoing(aside))
    case Placing => Try(w, i, raises, Move(w.fs, lone, rom.Final()), Recording, Undoing(aside))
    case Recording =>
      if raises then At(w, i, Undoing(true), w.fs) else At(w, i, Finished, w.fs).(converted := true)
    case Undoing(moved) =>
      if moved && rom.Final() in w.fs then
        Try(w, i, raises, Move(w.fs, rom.Final(), lone), Dropping(aside), Finished)
      else if moved && rom.Staged() in w.fs then
        if aside then At(w, i, Dropping(true), w.fs)
        else Try(w, i, raises, Move(w.fs, rom.Staged(), rom.Origin()), Dropping(false), Finished)
      else At(w, i, Dropping(false), w.fs)
    case Dropping(back) =>
      At(w, i, if IsDir(w.fs, rom.Dest()) && Empty(w.fs, rom.Dest()) then Deleting(back) else Afterwards(back), w.fs)
    case Deleting(back) => Try(w, i, raises, RemoveDirectory(w.fs, rom.Dest()), Afterwards(back), Finished)
    case Returning => Try(w, i, raises, Move(w.fs, rom.Staged(), rom.Origin()), Finished, Finished)
    case Finished => w
  }

  datatype Turn = Turn(worker: nat, raises: bool)

  function Take(w: World, rom: Rom, t: Turn): World {
    if t.worker < |w.workers| then Step(w, rom, t.worker, t.raises) else w
  }

  function Run(w: World, rom: Rom, turns: seq<Turn>): World
    decreases |turns|
  {
    if turns == [] then w else Run(Take(w, rom, turns[0]), rom, turns[1..])
  }

  /** `n` workers that have all read the row before anyone converted it. */
  function Start(fs: Disk, n: nat): World { World(fs, false, seq(n, _ => Checking)) }

  /** A worker acts on something it saw before the file went into the folder: it stages the
      finished folder as if it were the file, or removes it as if it were empty. */
  predicate Harms(w: World, rom: Rom, t: Turn) {
    && t.worker < |w.workers| && !t.raises && rom.Final() in w.fs
    && (w.workers[t.worker].Staging? || w.workers[t.worker].Deleting?)
  }

  predicate NeverHarms(w: World, rom: Rom, turns: seq<Turn>)
    decreases |turns|
  {
    turns != [] ==> !Harms(w, rom, turns[0]) && NeverHarms(Take(w, rom, turns[0]), rom, turns[1..])
  }

  /** From here to the end the bytes are in exactly one of the three places. */
  predicate AlwaysHeld(w: World, rom: Rom, bytes: string, turns: seq<Turn>)
    decreases |turns|
  {
    HeldOnce(w.fs, rom, bytes) && (turns != [] ==> AlwaysHeld(Take(w, rom, turns[0]), rom, bytes, turns[1..]))
  }

  // ---- What the operations do to the disks a race can reach ----

  lemma Operations(fs: Disk, rom: Rom, bytes: string)
    requires Ready(fs, rom, bytes) && !rom.Extensionless()
    ensures var open, settled := Opened(fs, rom), Settled(fs, rom, bytes);
            && MakeDirectory(fs, rom.Dest()) == Some(open)
            && MakeDirectory(open, rom.Dest()) == Some(open)
            && MakeDirectory(settled, rom.Dest()) == Some(settled)
            && Move(fs, rom.Origin(), rom.Final()) == Some(settled)
            && Move(open, rom.Origin(), rom.Final()) == Some(settled)
            && Move(settled, rom.Origin(), rom.Final()) == None
            && Move(settled, rom.Final(), rom.Origin()) == Some(open)
  {
    ReadyPaths(fs, rom, bytes);
    OpenDest(fs, rom);
    var open, settled := Opened(fs, rom), Settled(fs, rom, bytes);
    MoveFile(open, rom.Origin(), rom.Final());
    assert (open - {rom.Origin()})[rom.Final() := File(bytes)] == settled;
    MoveFile(settled, rom.Final(), rom.Origin());
    assert (settled - {rom.Final()})[rom.Origin() := File(bytes)] == open;
  }

  lemma Contents(fs: Disk, rom: Rom, bytes: string)
    requires Ready(fs, rom, bytes) && !rom.Extensionless()
    ensures var open, settled := Opened(fs, rom), Settled(fs, rom, bytes);
            && !IsDir(fs, rom.Dest()) && rom.Final() !in fs && rom.Final() !in open && rom.Final() in settled
            && Empty(open, rom.Dest()) && IsDir(open, rom.Dest()) && RemoveDirectory(open, rom.Dest()) == Some(fs)
            && !Empty(settled, rom.Dest())
            && rom.Origin() in fs && IsDir(settled, rom.Dest())
  {
    ReadyPaths(fs, rom, bytes);
    var open, settled := Opened(fs, rom), Settled(fs, rom, bytes);
    assert (map q | q in open && q != rom.Dest() && !Below(rom.Dest(), q) :: open[q]) == fs;
    assert Below(rom.Dest(), rom.Final());
    assert IsDir(open, rom.Dest());
  }

  /** The same for an extensionless ROM, whose file steps aside first. */
  lemma AsideOperations(fs: Disk, rom: Rom, bytes: string)
    requires Ready(fs, rom, bytes) && rom.Extensionless()
    ensures var aside, full := Stepped(fs, rom, bytes), Settled(fs, rom, bytes);
            var open := Opened(aside, rom);
            && Move(fs, rom.Origin(), rom.Staged()) == Some(aside)
            && MakeDirectory(fs, rom.Dest()) == None
            && MakeDirectory(aside, rom.Dest()) == MakeDirectory(open, rom.Dest()) == Some(open)
            && MakeDirectory(full, rom.Dest()) == Some(full)
            && Move(open, rom.Staged(), rom.Final()) == Some(full)
            && Move(full, rom.Final(), rom.Staged()) == Some(open)
            && Move(aside, rom.Staged(), rom.Origin()) == Some(fs)
  {
    ReadyPaths(fs, rom, bytes);
    StepAside(fs, rom, bytes);
    var aside, full := Stepped(fs, rom, bytes), Settled(fs, rom, bytes);
    MoveFile(full, rom.Final(), rom.Staged());
    assert (full - {rom.Final()})[rom.Staged() := File(bytes)] == Opened(aside, rom);
    MoveFile(aside, rom.Staged(), rom.Origin());
    assert (aside - {rom.Staged()})[rom.Origin() := File(bytes)] == fs;
  }

  /** A folder removed under its owner is made again when the file is placed. */
  lemma PlacedAnyway(fs: Disk, rom: Rom, bytes: string)
    requires Ready(fs, rom, bytes) && rom.Extensionless()
    ensures Move(Stepped(fs, rom, bytes), rom.Staged(), rom.Final()) == Some(Settled(fs, rom, bytes))
  {
    ReadyPaths(fs, rom, bytes);
    var aside := Stepped(fs, rom, bytes);
    OpenDest(aside, rom);
    var open := Opened(aside, rom);
    assert EnsureDir(aside, Parent(rom.Final())) == Some(open);
    assert !Below(rom.Staged(), rom.Final()) by { assert rom.Final()[..|rom.Staged()|] == rom.Dest(); }
    assert (open - {rom.Staged()})[rom.Final() := File(bytes)] == Settled(fs, rom, bytes);
  }

  /** An empty folder in the file's place cannot be staged over the staged file. */
  lemma AsideContents(fs: Disk, rom: Rom, bytes: string)
    requires Ready(fs, rom, bytes) && rom.Extensionless()
    ensures var aside, full := Stepped(fs, rom, bytes), Settled(fs, rom, bytes);
            var open := Opened(aside, rom);
            && rom.Origin() !in aside && rom.Staged() !in fs && rom.Staged() !in full
            && rom.Staged() in aside && rom.Staged() in open
            && rom.Final() !in fs && rom.Final() !in aside && rom.Final() !in open && rom.Final() in full
            && !IsDir(fs, rom.Dest()) && !IsDir(aside, rom.Dest()) && IsDir(open, rom.Dest()) && IsDir(full, rom.Dest())
            && Empty(open, rom.Dest()) && !Empty(full, rom.Dest())
            && RemoveDirectory(open, rom.Dest()) == Some(aside)
            && Move(open, rom.Origin(), rom.Staged()) == None
  {
    ReadyPaths(fs, rom, bytes);
    var aside, full := Stepped(fs, rom, bytes), Settled(fs, rom, bytes);
    var open := Opened(aside, rom);
    assert !Below(rom.Dest(), rom.Staged()) by { assert |rom.Dest()| == |rom.Staged()|; }
    assert (map q | q in open && q != rom.Dest() && !Below(rom.Dest(), q) :: open[q]) == aside;
    assert Below(rom.Dest(), rom.Final());
    assert EnsureDir(open, Parent(rom.Staged())) == Some(open);
  }

  // ---- What a late worker's staging does ----

  /** Moving a folder that holds one file carries the file along. */
  lemma RelocateOne(fs: Disk, src: Path, dst: Path, name: string)
    requires IsDir(fs, src) && src + [name] in fs && !Below(src, dst) && dst != src
    requires forall q | q in fs && Below(src, q) :: q == src + [name]
    ensures Relocate(fs, src, dst) == (fs - {src} - {src + [name]})[dst := Dir][dst + [name] := fs[src + [name]]]
  {
    var child := src + [name];
    assert child[|src|..] == [name] && (dst + [name])[|dst|..] == [name];
    var carried := set q | q in fs && Below(src, q) :: dst + q[|src|..];
    assert Below(src, child);
    assert carried == {dst + [name]};
  }

  lemma MoveFolder(fs: Disk, src: Path, dst: Path, name: string)
    requires IsDir(fs, src) && src + [name] in fs && !Below(src, dst) && dst != src
    requires forall q | q in fs && Below(src, q) :: q == src + [name]
    requires src != [] && dst != [] && dst !in fs && IsDir(fs, Parent(dst))
    ensures Move(fs, src, dst) == Some((fs - {src} - {src + [name]})[dst := Dir][dst + [name] := fs[src + [name]]])
  {
    RelocateOne(fs, src, dst, name);
  }

  /** The finished folder, staged as if it were the file. */
  function LateStaged(fs: Disk, rom: Rom, bytes: string): Disk {
    (Settled(fs, rom, bytes) - {rom.Origin()} - {rom.Final()})[rom.Staged() := Dir][rom.Staged() + [rom.name] := File(bytes)]
  }

  lemma LateStages(fs: Disk, rom: Rom, bytes: string)
    requires Ready(fs, rom, bytes) && rom.Extensionless()
    ensures Move(Settled(fs, rom, bytes), rom.Origin(), rom.Staged()) == Some(LateStaged(fs, rom, bytes))
    ensures MakeDirectory(LateStaged(fs, rom, bytes), rom.Dest()) == Some(Opened(LateStaged(fs, rom, bytes), rom))
  {
    ReadyPaths(fs, rom, bytes);
    MoveFolder(Settled(fs, rom, bytes), rom.Origin(), rom.Staged(), rom.name);
    hide Move, Rooted;
    OpenDest(LateStaged(fs, rom, bytes), rom);
  }

  // ---- A race, seen only as the state of the folder ----

  /** No folder and the file at its origin; no folder and the file aside; an empty folder;
      the file inside it. */
  datatype Shape = Free | Aside | Open | Full

  datatype Shadow = Shadow(shape: Shape, converted: bool, workers: seq<Phase>)

  function DiskOf(shape: Shape, fs: Disk, rom: Rom, bytes: string): Disk {
    match shape
    case Free => fs
    case Aside => Stepped(fs, rom, bytes)
    case Open => if rom.Extensionless() then Opened(Stepped(fs, rom, bytes), rom) else Opened(fs, rom)
    case Full => Settled(fs, rom, bytes)
  }

  function Cast(s: Shadow, fs: Disk, rom: Rom, bytes: string): World {
    World(DiskOf(s.shape, fs, rom, bytes), s.converted, s.workers)
  }

  /** `aside`: the ROM is extensionless. */
  function Next(aside: bool, phase: Phase, shape: Shape, raises: bool): (Phase, Shape) {
    match phase
    case Checking => (if shape.Open? || shape.Full? then Finished else if aside then Staging else Making, shape)
    case Staging => if raises || !shape.Free? then (Undoing(false), shape) else (Making, Aside)
    case Making =>
      if raises || (aside && shape.Free?) then (Undoing(aside), shape)
      else (Placing, if shape.Full? then Full else Open)
    case Placing =>
      if raises || shape.Full? || (aside && shape.Free?) then (Undoing(aside), shape) else (Recording, Full)
    case Recording => (if raises then Undoing(true) else Finished, shape)
    case Undoing(moved) =>
      if moved && shape.Full? then if raises then (Finished, Full) else (Dropping(aside), Open)
      else (Dropping(moved && aside && !shape.Free?), shape)
    case Dropping(back) => (if shape.Open? then Deleting(back) else Afterwards(back), shape)
    case Deleting(back) =>
      if raises || !shape.Open? then (Finished, shape) else (Afterwards(back), if aside then Aside else Free)
    case Returning => (Finished, if raises || !shape.Aside? then shape else Free)
    case Finished => (Finished, shape)
  }

  function ShadowStep(aside: bool, s: Shadow, i: nat, raises: bool): Shadow
    requires i < |s.workers|
  {
    var (phase, shape) := Next(aside, s.workers[i], s.shape, raises);
    Shadow(shape, s.converted || (s.workers[i].Recording? && !raises), s.workers[i := phase])
  }

  /** A worker that has moved the file and not yet recorded or returned it. */
  predicate Owns(aside: bool, phase: Phase) {
    || phase.Recording? || phase == Undoing(true)
    || (aside && (phase.Making? || phase.Placing? || phase == Dropping(true) || phase == Deleting(true) || phase.Returning?))
  }

  /** What the folder can look like to a worker in each phase. */
  predicate Fits(aside: bool, phase: Phase, shape: Shape) {
    match phase
    case Staging => aside
    case Making => aside ==> shape.Aside?
    case Placing => aside ==> shape.Aside? || shape.Open?
    case Recording => shape.Full?
    case Undoing(moved) => moved ==> if aside then !shape.Free? else shape.Full?
    case Dropping(back) => back ==> aside && (shape.Aside? || shape.Open?)
    case Deleting(back) => back ==> aside && (shape.Aside? || shape.Open?)
    case Returning => aside && shape.Aside?
    case _ => true
  }

  /** The file has at most one owner, and none once the row is converted. */
  predicate Sane(aside: bool, s: Shadow) {
    && (forall i | 0 <= i < |s.workers| :: Fits(aside, s.workers[i], s.shape))
    && (forall i, j | 0 <= i < j < |s.workers| :: !(Owns(aside, s.workers[i]) && Owns(aside, s.workers[j])))
    && (s.converted ==> s.shape.Full? && forall i | 0 <= i < |s.workers| :: !Owns(aside, s.workers[i]))
    && (s.shape.Aside? ==> aside)
  }

  predicate ShadowHarms(s: Shadow, t: Turn) {
    && t.worker < |s.workers| && !t.raises && s.shape.Full?
    && (s.workers[t.worker].Staging? || s.workers[t.worker].Deleting?)
  }

  lemma StepStaysSane(aside: bool, s: Shadow, i: nat, raises: bool)
    requires Sane(aside, s) && i < |s.workers| && !ShadowHarms(s, Turn(i, raises))
    ensures Sane(aside, ShadowStep(aside, s, i, raises))
  {
    var s' := ShadowStep(aside, s, i, raises);
    assert Fits(aside, s.workers[i], s.shape);
    forall j | 0 <= j < |s.workers| && j != i
      ensures Fits(aside, s'.workers[j], s'.shape)
      ensures !(Owns(aside, s'.workers[i]) && Owns(aside, s'.workers[j]))
    {
      assert s'.workers[j] == s.workers[j] && Fits(aside, s.workers[j], s.shape);
      assert !(Owns(aside, s.workers[i]) && Owns(aside, s.workers[j]));
      OthersFit(aside, s.workers[i], s.workers[j], s.shape, raises);
    }
  }

  /** One worker's step leaves the folder fit for every other. */
  lemma OthersFit(aside: bool, mine: Phase, other: Phase, shape: Shape, raises: bool)
    requires Fits(aside, mine, shape) && Fits(aside, other, shape) && !(Owns(aside, mine) && Owns(aside, other))
    requires shape.Aside? ==> aside
    requires raises || !shape.Full? || !(mine.Staging? || mine.Deleting?)
    ensures var (phase, shape') := Next(aside, mine, shape, raises);
            Fits(aside, other, shape') && !(Owns(aside, phase) && Owns(aside, other))
  {
  }

  // ---- The disks follow their shadow ----

  /** What the disks of a ROM with an extension answer, with the disks themselves unread. */
  predicate Answers(free: Disk, open: Disk, full: Disk, rom: Rom) {
    && !Collides(free, rom) && Collides(open, rom) && Collides(full, rom)
    && MakeDirectory(free, rom.Dest()) == MakeDirectory(open, rom.Dest()) == Some(open)
    && MakeDirectory(full, rom.Dest()) == Some(full)
    && Move(free, rom.Origin(), rom.Final()) == Move(open, rom.Origin(), rom.Final()) == Some(full)
    && Move(full, rom.Origin(), rom.Final()) == None && Move(full, rom.Final(), rom.Origin()) == Some(open)
    && rom.Final() !in free && rom.Final() !in open && rom.Final() in full
    && !IsDir(free, rom.Dest()) && IsDir(open, rom.Dest()) && Empty(open, rom.Dest()) && !Empty(full, rom.Dest())
    && RemoveDirectory(open, rom.Dest()) == Some(free) && RemoveDirectory(free, rom.Dest()) == None
  }

  lemma DisksAnswer(fs: Disk, rom: Rom, bytes: string)
    requires Ready(fs, rom, bytes) && !rom.Extensionless()
    ensures Answers(fs, Opened(fs, rom), Settled(fs, rom, bytes), rom)
  {
    Operations(fs, rom, bytes);
    Contents(fs, rom, bytes);
    assert Collides(Opened(fs, rom), rom) && Collides(Settled(fs, rom, bytes), rom) && !Collides(fs, rom);
    assert RemoveDirectory(fs, rom.Dest()) == None;
    hide Ready, Opened, Settled, Move, MakeDirectory, RemoveDirectory, Empty, Collides, IsDir;
  }

  predicate AsideAnswers(free: Disk, aside: Disk, open: Disk, full: Disk, rom: Rom) {
    && !Collides(free, rom) && !Collides(aside, rom) && Collides(open, rom) && Collides(full, rom)
    && Move(free, rom.Origin(), rom.Staged()) == Some(aside)
    && Move(aside, rom.Origin(), rom.Staged()) == Move(open, rom.Origin(), rom.Staged()) == None
    && MakeDirectory(free, rom.Dest()) == None && MakeDirectory(full, rom.Dest()) == Some(full)
    && MakeDirectory(aside, rom.Dest()) == MakeDirectory(open, rom.Dest()) == Some(open)
    && Move(free, rom.Staged(), rom.Final()) == Move(full, rom.Staged(), rom.Final()) == None
    && Move(aside, rom.Staged(), rom.Final()) == Move(open, rom.Staged(), rom.Final()) == Some(full)
    && Move(full, rom.Final(), rom.Staged()) == Some(open)
    && Move(aside, rom.Staged(), rom.Origin()) == Some(free)
    && Move(free, rom.Staged(), rom.Origin()) == Move(full, rom.Staged(), rom.Origin()) == None
    && rom.Final() !in free && rom.Final() !in aside && rom.Final() !in open && rom.Final() in full
    && rom.Staged() !in free && rom.Staged() in aside && rom.Staged() in open && rom.Staged() !in full
    && !IsDir(free, rom.Dest()) && !IsDir(aside, rom.Dest()) && IsDir(open, rom.Dest())
    && Empty(open, rom.Dest()) && !Empty(full, rom.Dest())
    && RemoveDirectory(open, rom.Dest()) == Some(aside)
    && RemoveDirectory(free, rom.Dest()) == RemoveDirectory(aside, rom.Dest()) == None
  }

  lemma AsideDisksAnswer(fs: Disk, rom: Rom, bytes: string)
    requires Ready(fs, rom, bytes) && rom.Extensionless()
    ensures var aside := Stepped(fs, rom, bytes);
            AsideAnswers(fs, aside, Opened(aside, rom), Settled(fs, rom, bytes), rom)
  {
    AsideOperations(fs, rom, bytes);
    PlacedAnyway(fs, rom, bytes);
    AsideContents(fs, rom, bytes);
    AsideRefuses(fs, rom, bytes);
    hide Ready, Opened, Settled, Stepped, Move, MakeDirectory, RemoveDirectory, Empty, Collides, IsDir;
  }

  lemma AsideRefuses(fs: Disk, rom: Rom, bytes: string)
    requires Ready(fs, rom, bytes) && rom.Extensionless()
    ensures var aside, full := Stepped(fs, rom, bytes), Settled(fs, rom, bytes);
            && !Collides(fs, rom) && !Collides(aside, rom) && Collides(Opened(aside, rom), rom) && Collides(full, rom)
            && Move(aside, rom.Origin(), rom.Staged()) == None
            && Move(fs, rom.Staged(), rom.Final()) == Move(full, rom.Staged(), rom.Final()) == None
            && Move(fs, rom.Staged(), rom.Origin()) == Move(full, rom.Staged(), rom.Origin()) == None
            && RemoveDirectory(fs, rom.Dest()) == RemoveDirectory(aside, rom.Dest()) == None
  {
    AsideContents(fs, rom, bytes);
    hide Rooted, Stepped, Settled, Opened, Empty;
  }

  function Pick(shape: Shape, free: Disk, aside: Disk, open: Disk, full: Disk): Disk {
    match shape
    case Free => free
    case Aside => aside
    case Open => open
    case Full => full
  }

  lemma StepPicks(s: Shadow, free: Disk, open: Disk, full: Disk, rom: Rom, i: nat, raises: bool)
    requires Answers(free, open, full, rom) && !rom.Extensionless() && i < |s.workers|
    requires Fits(false, s.workers[i], s.shape) && !s.shape.Aside? && !ShadowHarms(s, Turn(i, raises))
    ensures var s' := ShadowStep(false, s, i, raises);
            Step(World(Pick(s.shape, free, free, open, full), s.converted, s.workers), rom, i, raises)
            == World(Pick(s'.shape, free, free, open, full), s'.converted, s'.workers)
  {
    hide MakeDirectory, Move, Collides, Empty, IsDir, RemoveDirectory;
    match s.shape
    case Free =>
    case Open =>
    case Full =>
  }

  lemma AsidePicks(s: Shadow, free: Disk, aside: Disk, open: Disk, full: Disk, rom: Rom, i: nat, raises: bool)
    requires AsideAnswers(free, aside, open, full, rom) && rom.Extensionless() && i < |s.workers|
    requires Fits(true, s.workers[i], s.shape) && !ShadowHarms(s, Turn(i, raises))
    ensures var s' := ShadowStep(true, s, i, raises);
            Step(World(Pick(s.shape, free, aside, open, full), s.converted, s.workers), rom, i, raises)
            == World(Pick(s'.shape, free, aside, open, full), s'.converted, s'.workers)
  {
    hide MakeDirectory, Move, Collides, Empty, IsDir, RemoveDirectory;
    match s.shape
    case Free =>
    case Aside =>
    case Open =>
    case Full =>
  }

  /** The real disk follows its shadow, operation by operation. */
  lemma StepFollows(s: Shadow, fs: Disk, rom: Rom, bytes: string, i: nat, raises: bool)
    requires Ready(fs, rom, bytes) && Sane(rom.Extensionless(), s)
    requires i < |s.workers| && !ShadowHarms(s, Turn(i, raises))
    ensures Step(Cast(s, fs, rom, bytes), rom, i, raises)
            == Cast(ShadowStep(rom.Extensionless(), s, i, raises), fs, rom, bytes)
  {
    assert Fits(rom.Extensionless(), s.workers[i], s.shape);
    hide Step, ShadowStep, Ready, Opened, Settled, Stepped, Answers, AsideAnswers, Fits, ShadowHarms, DiskOf;
    var s' := ShadowStep(rom.Extensionless(), s, i, raises);
    if rom.Extensionless() {
      AsideDisksAnswer(fs, rom, bytes);
      var aside := Stepped(fs, rom, bytes);
      AsidePicks(s, fs, aside, Opened(aside, rom), Settled(fs, rom, bytes), rom, i, raises);
      Pictured(s.shape, fs, rom, bytes);
      Pictured(s'.shape, fs, rom, bytes);
    } else {
      DisksAnswer(fs, rom, bytes);
      StepPicks(s, fs, Opened(fs, rom), Settled(fs, rom, bytes), rom, i, raises);
      NeverAside(s, i, raises);
      Pictured(s.shape, fs, rom, bytes);
      Pictured(s'.shape, fs, rom, bytes);
    }
  }

  lemma Pictured(shape: Shape, fs: Disk, rom: Rom, bytes: string)
    ensures var aside := Stepped(fs, rom, bytes);
            if rom.Extensionless() then
              DiskOf(shape, fs, rom, bytes) == Pick(shape, fs, aside, Opened(aside, rom), Settled(fs, rom, bytes))
            else
              !shape.Aside? ==> DiskOf(shape, fs, rom, bytes) == Pick(shape, fs, fs, Opened(fs, rom), Settled(fs, rom, bytes))
  {
    hide Stepped, Opened, Settled;
  }

  lemma NeverAside(s: Shadow, i: nat, raises: bool)
    requires Sane(false, s) && i < |s.workers|
    ensures !ShadowStep(false, s, i, raises).shape.Aside?
  {
    assert Fits(false, s.workers[i], s.shape);
  }

  lemma FileIsInside(shape: Shape, fs: Disk, rom: Rom, bytes: string)
    requires Ready(fs, rom, bytes) && (shape.Aside? ==> rom.Extensionless())
    ensures rom.Final() in DiskOf(shape, fs, rom, bytes) <==> shape.Full?
  {
    hide Ready, DiskOf, Opened, Settled, Stepped, Move, MakeDirectory, RemoveDirectory, Collides, Empty, IsDir;
    if rom.Extensionless() { AsideDisksAnswer(fs, rom, bytes); } else { DisksAnswer(fs, rom, bytes); }
    Pictured(shape, fs, rom, bytes);
  }

  lemma HarmIsSeen(s: Shadow, fs: Disk, rom: Rom, bytes: string, t: Turn)
    requires Ready(fs, rom, bytes) && Sane(rom.Extensionless(), s)
    ensures Harms(Cast(s, fs, rom, bytes), rom, t) <==> ShadowHarms(s, t)
  {
    hide Ready, DiskOf, Fits, Owns;
    FileIsInside(s.shape, fs, rom, bytes);
  }

  lemma ShapesHold(s: Shadow, fs: Disk, rom: Rom, bytes: string)
    requires Ready(fs, rom, bytes) && Sane(rom.Extensionless(), s)
    ensures Ending(fs, rom, bytes, DiskOf(s.shape, fs, rom, bytes))
    ensures HeldOnce(DiskOf(s.shape, fs, rom, bytes), rom, bytes)
  {
    assert Ending(fs, rom, bytes, DiskOf(s.shape, fs, rom, bytes)) by { hide Ready, Settled, Stepped, Opened, Fits, Owns; }
    EndingsHold(fs, rom, bytes, DiskOf(s.shape, fs, rom, bytes));
    hide Ready, Ending, DiskOf, HeldOnce;
  }

  lemma RemovedWithTheFile(fs: Disk, rom: Rom, bytes: string)
    requires Ready(fs, rom, bytes)
    ensures RemoveDirectory(Settled(fs, rom, bytes), rom.Dest()) == Some(fs - {rom.Origin()})
    ensures rom.Staged() !in fs && rom.Final() !in fs
  {
    ReadyPaths(fs, rom, bytes);
    var full := Settled(fs, rom, bytes);
    assert Below(rom.Dest(), rom.Final());
    assert (map q | q in full && q != rom.Dest() && !Below(rom.Dest(), q) :: full[q]) == fs - {rom.Origin()};
  }

  /** Right after a harmful turn the bytes are at none of the three places. */
  lemma HarmLoses(s: Shadow, fs: Disk, rom: Rom, bytes: string, t: Turn)
    requires Ready(fs, rom, bytes) && Sane(rom.Extensionless(), s) && ShadowHarms(s, t)
    ensures var fs' := Take(Cast(s, fs, rom, bytes), rom, t).fs;
            && !HeldOnce(fs', rom, bytes)
            && (s.workers[t.worker].Deleting? ==> fs' == fs - {rom.Origin()})
  {
    RemovedWithTheFile(fs, rom, bytes);
    assert Fits(rom.Extensionless(), s.workers[t.worker], s.shape);
    if s.workers[t.worker].Staging? {
      LateStages(fs, rom, bytes);
      LateStagedNowhere(fs, rom, bytes);
    }
    hide Ready, Move, RemoveDirectory, Settled, Stepped, Opened, LateStaged;
  }

  lemma LateStagedNowhere(fs: Disk, rom: Rom, bytes: string)
    requires Ready(fs, rom, bytes) && rom.Extensionless()
    ensures var late := LateStaged(fs, rom, bytes);
            !IsFile(late, rom.Origin()) && !IsFile(late, rom.Staged()) && !IsFile(late, rom.Final())
  {
    ReadyPaths(fs, rom, bytes);
    assert |rom.Staged() + [rom.name]| != |rom.Origin()|;
    assert (rom.Staged() + [rom.name])[..|rom.Staged()|] == rom.Staged() && rom.Final()[..|rom.Staged()|] == rom.Origin();
  }

  // ---- The bytes are held to the end exactly when no turn harms ----

  lemma {:induction false} HeldExactly(s: Shadow, fs: Disk, rom: Rom, bytes: string, turns: seq<Turn>)
    requires Ready(fs, rom, bytes) && Sane(rom.Extensionless(), s)
    ensures AlwaysHeld(Cast(s, fs, rom, bytes), rom, bytes, turns) <==> NeverHarms(Cast(s, fs, rom, bytes), rom, turns)
    decreases |turns|
  {
    ShapesHold(s, fs, rom, bytes);
    if turns != [] {
      HarmIsSeen(s, fs, rom, bytes, turns[0]);
      if ShadowHarms(s, turns[0]) {
        HarmLoses(s, fs, rom, bytes, turns[0]);
      } else {
        var s' := Follow(s, fs, rom, bytes, turns[0]);
        HeldExactly(s', fs, rom, bytes, turns[1..]);
      }
    }
    hide Ready, Sane, DiskOf, Take, Harms, HeldOnce, ShadowHarms;
  }

  /** The shadow after one turn. */
  lemma Follow(s: Shadow, fs: Disk, rom: Rom, bytes: string, t: Turn) returns (s': Shadow)
    requires Ready(fs, rom, bytes) && Sane(rom.Extensionless(), s) && !ShadowHarms(s, t)
    ensures Sane(rom.Extensionless(), s') && Take(Cast(s, fs, rom, bytes), rom, t) == Cast(s', fs, rom, bytes)
    ensures s' == if t.worker < |s.workers| then ShadowStep(rom.Extensionless(), s, t.worker, t.raises) else s
  {
    s' := s;
    if t.worker < |s.workers| {
      StepFollows(s, fs, rom, bytes, t.worker, t.raises);
      StepStaysSane(rom.Extensionless(), s, t.worker, t.raises);
      s' := ShadowStep(rom.Extensionless(), s, t.worker, t.raises);
    }
    hide Ready, Sane, DiskOf, Step, ShadowStep, ShadowHarms;
  }

  /** An empty folder, or a file moved and not recorded, has a worker left to undo it. */
  predicate Tended(aside: bool, s: Shadow) {
    && (s.shape.Open? && !aside ==> exists i :: 0 <= i < |s.workers| && Cleans(s.workers[i]))
    && ((s.shape.Full? || (aside && !s.shape.Free?)) && !s.converted ==>
          exists i :: 0 <= i < |s.workers| && Owns(aside, s.workers[i]))
  }

  predicate Cleans(phase: Phase) {
    phase.Placing? || phase.Recording? || phase.Undoing? || phase.Dropping? || phase.Deleting?
  }

  /** Undoing does not raise; in particular the owner's removal finds the folder it saw. */
  predicate UndoHolds(w: World, rom: Rom, t: Turn) {
    t.worker < |w.workers| ==>
      && (t.raises ==> !w.workers[t.worker].Undoing? && !w.workers[t.worker].Deleting? && !w.workers[t.worker].Returning?)
      && (w.workers[t.worker] == Deleting(true) ==> IsDir(w.fs, rom.Dest()))
  }

  predicate UndoAlwaysHolds(w: World, rom: Rom, turns: seq<Turn>)
    decreases |turns|
  {
    turns != [] ==> UndoHolds(w, rom, turns[0]) && UndoAlwaysHolds(Take(w, rom, turns[0]), rom, turns[1..])
  }

  lemma StepStaysTended(aside: bool, s: Shadow, i: nat, raises: bool)
    requires Sane(aside, s) && Tended(aside, s) && i < |s.workers| && !ShadowHarms(s, Turn(i, raises))
    requires raises ==> !s.workers[i].Undoing? && !s.workers[i].Deleting? && !s.workers[i].Returning?
    requires s.workers[i] == Deleting(true) ==> s.shape.Open?
    ensures Tended(aside, ShadowStep(aside, s, i, raises))
  {
    var s' := ShadowStep(aside, s, i, raises);
    assert Fits(aside, s.workers[i], s.shape);
    if (s'.shape.Full? || (aside && !s'.shape.Free?)) && !s'.converted && !Owns(aside, s'.workers[i]) {
      var k :| 0 <= k < |s.workers| && Owns(aside, s.workers[k]);
      assert Owns(aside, s'.workers[k]);
    }
    if s'.shape.Open? && !aside && !Cleans(s'.workers[i]) {
      var k :| 0 <= k < |s.workers| && Cleans(s.workers[k]);
      assert Cleans(s'.workers[k]);
    }
  }

  lemma UndoIsSeen(s: Shadow, fs: Disk, rom: Rom, bytes: string, i: nat)
    requires Ready(fs, rom, bytes) && Sane(rom.Extensionless(), s) && i < |s.workers|
    requires s.workers[i] == Deleting(true) && IsDir(DiskOf(s.shape, fs, rom, bytes), rom.Dest())
    ensures s.shape.Open?
  {
    assert Fits(rom.Extensionless(), s.workers[i], s.shape);
    AsideDisksAnswer(fs, rom, bytes);
    hide Ready, Stepped, Opened, Settled;
  }

  lemma {:induction false} RunFollows(s: Shadow, fs: Disk, rom: Rom, bytes: string, turns: seq<Turn>) returns (t: Shadow)
    requires Ready(fs, rom, bytes) && Sane(rom.Extensionless(), s) && NeverHarms(Cast(s, fs, rom, bytes), rom, turns)
    ensures Run(Cast(s, fs, rom, bytes), rom, turns) == Cast(t, fs, rom, bytes) && Sane(rom.Extensionless(), t)
    ensures Tended(rom.Extensionless(), s) && UndoAlwaysHolds(Cast(s, fs, rom, bytes), rom, turns) ==>
              Tended(rom.Extensionless(), t)
    decreases |turns|
  {
    t := s;
    if turns != [] {
      HarmIsSeen(s, fs, rom, bytes, turns[0]);
      var s' := Follow(s, fs, rom, bytes, turns[0]);
      if Tended(rom.Extensionless(), s) && UndoHolds(Cast(s, fs, rom, bytes), rom, turns[0]) {
        TurnStaysTended(s, fs, rom, bytes, turns[0]);
      }
      t := RunFollows(s', fs, rom, bytes, turns[1..]);
    }
    hide Ready, Sane, DiskOf, Take, Harms, ShadowHarms, Tended, ShadowStep, UndoHolds;
  }

  lemma TurnStaysTended(s: Shadow, fs: Disk, rom: Rom, bytes: string, t: Turn)
    requires Ready(fs, rom, bytes) && Sane(rom.Extensionless(), s) && Tended(rom.Extensionless(), s)
    requires !ShadowHarms(s, t) && UndoHolds(Cast(s, fs, rom, bytes), rom, t)
    ensures t.worker < |s.workers| ==> Tended(rom.Extensionless(), ShadowStep(rom.Extensionless(), s, t.worker, t.raises))
  {
    if t.worker < |s.workers| {
      if s.workers[t.worker] == Deleting(true) { UndoIsSeen(s, fs, rom, bytes, t.worker); }
      StepStaysTended(rom.Extensionless(), s, t.worker, t.raises);
    }
    hide Ready, Sane, Tended, ShadowStep, DiskOf, ShadowHarms;
  }

  lemma Started(fs: Disk, rom: Rom, bytes: string, n: nat) returns (s: Shadow)
    ensures Cast(s, fs, rom, bytes) == Start(fs, n) && Sane(rom.Extensionless(), s) && Tended(rom.Extensionless(), s)
    ensures s == Shadow(Free, false, Start(fs, n).workers)
  {
    s := Shadow(Free, false, Start(fs, n).workers);
    hide Ready;
  }

  // ---- Main results ----

  /** Any number of workers, interleaved and interrupted anywhere, with or without an
      extension: at every moment the bytes are in exactly one place, if and only if no worker
      acts on a look it took before the file went into the folder. */
  lemma RacingPromotionsKeepTheBytes(fs: Disk, rom: Rom, bytes: string, n: nat, turns: seq<Turn>)
    requires Ready(fs, rom, bytes)
    ensures AlwaysHeld(Start(fs, n), rom, bytes, turns) <==> NeverHarms(Start(fs, n), rom, turns)
  {
    var s := Started(fs, rom, bytes, n);
    HeldExactly(s, fs, rom, bytes, turns);
  }

  /** Such a race changes nothing else on disk, and a converted row has its bytes. */
  lemma HarmlessRaceTouchesOnlyItsOwn(fs: Disk, rom: Rom, bytes: string, n: nat, turns: seq<Turn>)
    requires Ready(fs, rom, bytes) && NeverHarms(Start(fs, n), rom, turns)
    ensures var w := Run(Start(fs, n), rom, turns);
            && HeldOnce(w.fs, rom, bytes)
            && (forall p | !Own(rom, p) :: SameAt(fs, w.fs, p))
            && (w.converted ==> BytesAt(w.fs, rom.Final(), bytes))
  {
    var s := Started(fs, rom, bytes, n);
    var t := RunFollows(s, fs, rom, bytes, turns);
    ShapesHold(t, fs, rom, bytes);
    forall p | !Own(rom, p) ensures SameAt(fs, DiskOf(t.shape, fs, rom, bytes), p) {
      EndingsTouch(fs, rom, bytes, DiskOf(t.shape, fs, rom, bytes), p);
    }
    hide Ready, Run, NeverHarms, HeldOnce, Ending, Stepped, Opened, Start;
  }

  /** When such a race is over and undoing worked, either one worker's promotion stands or the
      disk is the starting one, with no folder left behind. */
  lemma RaceEndsClean(fs: Disk, rom: Rom, bytes: string, n: nat, turns: seq<Turn>)
    requires Ready(fs, rom, bytes) && NeverHarms(Start(fs, n), rom, turns)
    requires UndoAlwaysHolds(Start(fs, n), rom, turns)
    ensures var w := Run(Start(fs, n), rom, turns);
            (forall i | 0 <= i < |w.workers| :: w.workers[i] == Finished) ==>
              if w.converted then w.fs == Settled(fs, rom, bytes) else w.fs == fs
  {
    var s := Started(fs, rom, bytes, n);
    var t := RunFollows(s, fs, rom, bytes, turns);
    hide Ready, Opened, Settled, Stepped, Step, Run, NeverHarms, UndoAlwaysHolds, Start;
  }

  // ---- With an extension, a loss is for good ----

  /** Nothing is left at the three places, whether or not some worker makes the folder again. */
  predicate Bereft(fs: Disk, rom: Rom, fs': Disk) {
    fs' == fs - {rom.Origin()} || fs' == (fs - {rom.Origin()})[rom.Dest() := Dir]
  }

  lemma BereftOperations(fs: Disk, rom: Rom, bytes: string, fs': Disk)
    requires Ready(fs, rom, bytes) && !rom.Extensionless() && |rom.stem| <= |rom.name| && Bereft(fs, rom, fs')
    ensures rom.Origin() !in fs' && rom.Staged() !in fs' && rom.Final() !in fs'
    ensures MakeDirectory(fs', rom.Dest()) == Some((fs - {rom.Origin()})[rom.Dest() := Dir])
    ensures RemoveDirectory(fs', rom.Dest()).Some? ==> RemoveDirectory(fs', rom.Dest()).value == fs - {rom.Origin()}
  {
    ReadyPaths(fs, rom, bytes);
    var lost := fs - {rom.Origin()};
    assert rom.Staged()[|rom.at|] == STAGE_PREFIX + rom.name && rom.Dest()[|rom.at|] == rom.stem;
    assert rom.at != rom.Origin() by { assert |rom.at| < |rom.Origin()|; }
    OpenDest(lost, rom);
    assert EnsureDir(lost[rom.Dest() := Dir], rom.Dest()) == Some(lost[rom.Dest() := Dir]);
    if IsDir(fs', rom.Dest()) {
      assert (map q | q in fs' && q != rom.Dest() && !Below(rom.Dest(), q) :: fs'[q]) == lost;
    }
  }

  lemma NothingToMove(fs: Disk, src: Path, dst: Path)
    requires src !in fs
    ensures Move(fs, src, dst) == None
  {
  }

  lemma BereftStays(fs: Disk, rom: Rom, bytes: string, w: World, t: Turn)
    requires Ready(fs, rom, bytes) && !rom.Extensionless() && |rom.stem| <= |rom.name| && Bereft(fs, rom, w.fs)
    ensures Bereft(fs, rom, Take(w, rom, t).fs)
  {
    hide Ready, Move, MakeDirectory, RemoveDirectory, Collides, IsDir, Empty;
    BereftOperations(fs, rom, bytes, w.fs);
    NothingToMove(w.fs, rom.Origin(), rom.Final());
    NothingToMove(w.fs, rom.Origin(), rom.Staged());
    NothingToMove(w.fs, rom.Staged(), rom.Origin());
  }

  lemma {:induction false} BereftForGood(fs: Disk, rom: Rom, bytes: string, w: World, turns: seq<Turn>)
    requires Ready(fs, rom, bytes) && !rom.Extensionless() && |rom.stem| <= |rom.name| && Bereft(fs, rom, w.fs)
    ensures !HeldOnce(Run(w, rom, turns).fs, rom, bytes)
    decreases |turns|
  {
    if turns == [] {
      BereftOperations(fs, rom, bytes, w.fs);
    } else {
      BereftStays(fs, rom, bytes, w, turns[0]);
      BereftForGood(fs, rom, bytes, Take(w, rom, turns[0]), turns[1..]);
    }
    hide Ready, Take, Bereft;
  }

  lemma {:induction false} EndsHeldExactly(s: Shadow, fs: Disk, rom: Rom, bytes: string, turns: seq<Turn>)
    requires Ready(fs, rom, bytes) && !rom.Extensionless() && |rom.stem| <= |rom.name| && Sane(false, s)
    ensures HeldOnce(Run(Cast(s, fs, rom, bytes), rom, turns).fs, rom, bytes)
            <==> NeverHarms(Cast(s, fs, rom, bytes), rom, turns)
    decreases |turns|
  {
    if turns == [] {
      ShapesHold(s, fs, rom, bytes);
    } else {
      HarmIsSeen(s, fs, rom, bytes, turns[0]);
      if ShadowHarms(s, turns[0]) {
        HarmLoses(s, fs, rom, bytes, turns[0]);
        NeverStaging(s, turns[0].worker);
        BereftForGood(fs, rom, bytes, Take(Cast(s, fs, rom, bytes), rom, turns[0]), turns[1..]);
      } else {
        var s' := Follow(s, fs, rom, bytes, turns[0]);
        EndsHeldExactly(s', fs, rom, bytes, turns[1..]);
      }
    }
    hide Ready, Sane, DiskOf, Take, Harms, HeldOnce;
  }

  lemma NeverStaging(s: Shadow, i: nat)
    requires Sane(false, s) && i < |s.workers|
    ensures !s.workers[i].Staging?
  {
    assert Fits(false, s.workers[i], s.shape);
  }

  /** With an extension the bytes are in exactly one place at the end of a race if and only if
      no worker removed the folder after the file went in. A stem is cut from its name. */
  lemma RaceKeepsTheBytesExactly(fs: Disk, rom: Rom, bytes: string, n: nat, turns: seq<Turn>)
    requires Ready(fs, rom, bytes) && !rom.Extensionless() && |rom.stem| <= |rom.name|
    ensures HeldOnce(Run(Start(fs, n), rom, turns).fs, rom, bytes) <==> NeverHarms(Start(fs, n), rom, turns)
  {
    var s := Started(fs, rom, bytes, n);
    EndsHeldExactly(s, fs, rom, bytes, turns);
  }

  // ---- Races that cannot harm ----

  /** Between a worker's look and its act on it, nobody else runs. */
  predicate Uninterrupted(w: World, rom: Rom, turns: seq<Turn>)
    decreases |turns|
  {
    turns != [] ==>
      && (turns[0].worker < |w.workers| ==>
            forall j | 0 <= j < |w.workers| && j != turns[0].worker :: !w.workers[j].Staging? && !w.workers[j].Deleting?)
      && Uninterrupted(Take(w, rom, turns[0]), rom, turns[1..])
  }

  /** What a worker about to stage or remove saw still holds. */
  predicate Fresh(s: Shadow) {
    s.shape.Full? ==> forall i | 0 <= i < |s.workers| :: !s.workers[i].Staging? && !s.workers[i].Deleting?
  }

  lemma StepStaysFresh(aside: bool, s: Shadow, i: nat, raises: bool)
    requires i < |s.workers|
    requires forall j | 0 <= j < |s.workers| && j != i :: !s.workers[j].Staging? && !s.workers[j].Deleting?
    ensures Fresh(ShadowStep(aside, s, i, raises))
  {
  }

  lemma {:induction false} UninterruptedFrom(s: Shadow, fs: Disk, rom: Rom, bytes: string, turns: seq<Turn>)
    requires Ready(fs, rom, bytes) && Sane(rom.Extensionless(), s) && Fresh(s)
    requires Uninterrupted(Cast(s, fs, rom, bytes), rom, turns)
    ensures NeverHarms(Cast(s, fs, rom, bytes), rom, turns)
    decreases |turns|
  {
    if turns != [] {
      HarmIsSeen(s, fs, rom, bytes, turns[0]);
      var s' := Follow(s, fs, rom, bytes, turns[0]);
      if turns[0].worker < |s.workers| {
        StepStaysFresh(rom.Extensionless(), s, turns[0].worker, turns[0].raises);
      }
      UninterruptedFrom(s', fs, rom, bytes, turns[1..]);
    }
    hide Ready, Sane, DiskOf, Take, Harms, ShadowStep;
  }

  /** A race in which every look is acted on at once harms nobody, whatever raises. */
  lemma UninterruptedIsHarmless(fs: Disk, rom: Rom, bytes: string, n: nat, turns: seq<Turn>)
    requires Ready(fs, rom, bytes) && Uninterrupted(Start(fs, n), rom, turns)
    ensures NeverHarms(Start(fs, n), rom, turns)
  {
    var s := Started(fs, rom, bytes, n);
    UninterruptedFrom(s, fs, rom, bytes, turns);
  }

  lemma {:induction false} AloneIsUninterrupted(w: World, rom: Rom, turns: seq<Turn>)
    requires |w.workers| <= 1
    ensures Uninterrupted(w, rom, turns)
    decreases |turns|
  {
    if turns != [] { AloneIsUninterrupted(Take(w, rom, turns[0]), rom, turns[1..]); }
  }

  /** A worker that has the ROM to itself harms nobody. */
  lemma LoneWorkerIsHarmless(fs: Disk, rom: Rom, bytes: string, n: nat, turns: seq<Turn>)
    requires Ready(fs, rom, bytes) && n <= 1
    ensures NeverHarms(Start(fs, n), rom, turns)
  {
    AloneIsUninterrupted(Start(fs, n), rom, turns);
    UninterruptedIsHarmless(fs, rom, bytes, n, turns);
  }

  /** Nobody undoes before the file is in the folder, so nobody sees an empty one. */
  predicate Undisturbed(s: Shadow) {
    forall i | 0 <= i < |s.workers| ::
      && !s.workers[i].Staging? && !s.workers[i].Deleting? && s.workers[i] != Undoing(true)
      && (s.workers[i].Undoing? || s.workers[i].Dropping? ==> s.shape.Full?)
  }

  lemma {:induction false} UnraisedFrom(s: Shadow, fs: Disk, rom: Rom, bytes: string, turns: seq<Turn>)
    requires Ready(fs, rom, bytes) && !rom.Extensionless() && Sane(false, s) && Undisturbed(s)
    requires forall t | t in turns :: !t.raises
    ensures NeverHarms(Cast(s, fs, rom, bytes), rom, turns)
    decreases |turns|
  {
    if turns != [] {
      HarmIsSeen(s, fs, rom, bytes, turns[0]);
      var s' := Follow(s, fs, rom, bytes, turns[0]);
      if turns[0].worker < |s.workers| { StaysUndisturbed(s, turns[0].worker); }
      UnraisedFrom(s', fs, rom, bytes, turns[1..]);
    }
    hide Ready, Sane, DiskOf, Take, Harms, ShadowStep;
  }

  lemma StaysUndisturbed(s: Shadow, i: nat)
    requires Sane(false, s) && Undisturbed(s) && i < |s.workers|
    ensures Undisturbed(ShadowStep(false, s, i, false))
  {
    assert Fits(false, s.workers[i], s.shape);
  }

  /** With an extension, a race in which nothing raises harms nobody, however many workers
      fail because another was first. */
  lemma UnraisedIsHarmless(fs: Disk, rom: Rom, bytes: string, n: nat, turns: seq<Turn>)
    requires Ready(fs, rom, bytes) && !rom.Extensionless() && forall t | t in turns :: !t.raises
    ensures NeverHarms(Start(fs, n), rom, turns)
  {
    var s := Started(fs, rom, bytes, n);
    UnraisedFrom(s, fs, rom, bytes, turns);
  }
}
