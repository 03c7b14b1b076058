/** Two races that end with the bytes somewhere else, on any disk. */
module PromotionRaceRuns {
  import opened Common
  import opened Promotion
  import opened PromotionProofs
  import opened PromotionRaces

  const LOSING: seq<Turn> := [
    Turn(0, false), Turn(1, false), // both find the folder name free
    Turn(0, false), Turn(0, true),  // the first makes it, then its move raises
    Turn(0, false), Turn(0, false), // it has nothing to return, and sees the folder empty
    Turn(1, false), Turn(1, false), // the second moves the file in
    Turn(0, false)]                 // the first removes the folder, recursively

  const BURYING: seq<Turn> := [
    Turn(0, false), Turn(1, false), // both find no folder
    Turn(0, false), Turn(0, false), Turn(0, false), Turn(0, false), // the first promotes
    Turn(1, false), Turn(1, false), Turn(1, false), Turn(1, false)] // and so does the second

  function ShadowTake(aside: bool, s: Shadow, t: Turn): Shadow {
    if t.worker < |s.workers| then ShadowStep(aside, s, t.worker, t.raises) else s
  }

  function ShadowRun(aside: bool, s: Shadow, turns: seq<Turn>): Shadow
    decreases |turns|
  {
    if turns == [] then s else ShadowRun(aside, ShadowTake(aside, s, turns[0]), turns[1..])
  }

  predicate ShadowNeverHarms(aside: bool, s: Shadow, turns: seq<Turn>)
    decreases |turns|
  {
    turns != [] ==> !ShadowHarms(s, turns[0]) && ShadowNeverHarms(aside, ShadowTake(aside, s, turns[0]), turns[1..])
  }

  lemma {:induction false} RunIsShadowed(s: Shadow, fs: Disk, rom: Rom, bytes: string, turns: seq<Turn>, more: seq<Turn>)
    requires Ready(fs, rom, bytes) && Sane(rom.Extensionless(), s) && ShadowNeverHarms(rom.Extensionless(), s, turns)
    ensures var t := ShadowRun(rom.Extensionless(), s, turns);
            && Sane(rom.Extensionless(), t)
            && Run(Cast(s, fs, rom, bytes), rom, turns + more) == Run(Cast(t, fs, rom, bytes), rom, more)
    decreases |turns|
  {
    if turns == [] {
      assert turns + more == more;
    } else {
      assert (turns + more)[0] == turns[0] && (turns + more)[1..] == turns[1..] + more;
      var s' := Follow(s, fs, rom, bytes, turns[0]);
      RunIsShadowed(s', fs, rom, bytes, turns[1..], more);
    }
    hide Ready, Sane, DiskOf, Take, ShadowStep, ShadowHarms;
  }

  lemma ShadowOne(aside: bool, s: Shadow, t: Turn, rest: seq<Turn>)
    ensures var s' := ShadowTake(aside, s, t);
            && ShadowRun(aside, s, [t] + rest) == ShadowRun(aside, s', rest)
            && (ShadowNeverHarms(aside, s, [t] + rest) <==> !ShadowHarms(s, t) && ShadowNeverHarms(aside, s', rest))
  {
    assert ([t] + rest)[1..] == rest;
  }

  /** A turn taken without harm, before the rest of the run. */
  lemma Took(aside: bool, s: Shadow, t: Turn, s': Shadow, rest: seq<Turn>, last: Shadow)
    requires ShadowTake(aside, s, t) == s' && !ShadowHarms(s, t)
    requires ShadowNeverHarms(aside, s', rest) && ShadowRun(aside, s', rest) == last
    ensures ShadowNeverHarms(aside, s, [t] + rest) && ShadowRun(aside, s, [t] + rest) == last
  {
    ShadowOne(aside, s, t, rest);
  }

  lemma LosingShadow(s: Shadow)
    requires s == Shadow(Free, false, [Checking, Checking])
    ensures ShadowNeverHarms(false, s, LOSING[..8])
    ensures ShadowRun(false, s, LOSING[..8]) == Shadow(Full, false, [Deleting(false), Recording])
  {
    var s1, s2 := Shadow(Free, false, [Making, Checking]), Shadow(Free, false, [Making, Making]);
    var s3, s4 := Shadow(Open, false, [Placing, Making]), Shadow(Open, false, [Undoing(false), Making]);
    var a, b, r := Turn(0, false), Turn(1, false), Turn(0, true);
    var last := LosingTail(s4);
    Took(false, s3, r, s4, [a, a, b, b], last);
    Took(false, s2, a, s3, [r, a, a, b, b], last);
    Took(false, s1, b, s2, [a, r, a, a, b, b], last);
    Took(false, s, a, s1, [b, a, r, a, a, b, b], last);
    assert LOSING[..8] == [a, b, a, r, a, a, b, b];
  }

  lemma LosingTail(s4: Shadow) returns (s8: Shadow)
    requires s4 == Shadow(Open, false, [Undoing(false), Making])
    ensures s8 == Shadow(Full, false, [Deleting(false), Recording])
    ensures var a, b := Turn(0, false), Turn(1, false);
            ShadowNeverHarms(false, s4, [a, a, b, b]) && ShadowRun(false, s4, [a, a, b, b]) == s8
  {
    s8 := Shadow(Full, false, [Deleting(false), Recording]);
    var s5, s6 := Shadow(Open, false, [Dropping(false), Making]), Shadow(Open, false, [Deleting(false), Making]);
    var s7 := Shadow(Open, false, [Deleting(false), Placing]);
    var a, b := Turn(0, false), Turn(1, false);
    Took(false, s7, b, s8, [], s8);
    Took(false, s6, b, s7, [b], s8);
    Took(false, s5, a, s6, [b, b], s8);
    Took(false, s4, a, s5, [a, b, b], s8);
  }

  lemma LosingRun(fs: Disk, rom: Rom, bytes: string)
    requires Ready(fs, rom, bytes) && !rom.Extensionless()
    ensures Run(Start(fs, 2), rom, LOSING).fs == fs - {rom.Origin()}
  {
    hide Ready, Run, Take, DiskOf, ShadowRun, ShadowNeverHarms;
    var s := Started(fs, rom, bytes, 2);
    assert s.workers == [Checking, Checking];
    LosingShadow(s);
    hide Start;
    RunIsShadowed(s, fs, rom, bytes, LOSING[..8], LOSING[8..]);
    assert LOSING[..8] + LOSING[8..] == LOSING && LOSING[8..] == [Turn(0, false)] == [Turn(0, false)] + [];
    var t := ShadowRun(false, s, LOSING[..8]);
    hide Sane;
    HarmLoses(t, fs, rom, bytes, Turn(0, false));
    var w := Cast(t, fs, rom, bytes);
    RunOne(w, rom, Turn(0, false), []);
    RunNone(Take(w, rom, Turn(0, false)), rom);
  }

  /** Two workers can lose the bytes: whatever the disk, this interleaving leaves them at none
      of the three paths. */
  lemma TwoStepDropLosesTheBytes(fs: Disk, rom: Rom, bytes: string)
    requires Ready(fs, rom, bytes) && !rom.Extensionless()
    ensures var w := Run(Start(fs, 2), rom, LOSING);
            !IsFile(w.fs, rom.Origin()) && !IsFile(w.fs, rom.Staged()) && !IsFile(w.fs, rom.Final())
  {
    LosingRun(fs, rom, bytes);
    RemovedWithTheFile(fs, rom, bytes);
    hide Ready, Run;
  }

  lemma BuryingShadow(s: Shadow)
    requires s == Shadow(Free, false, [Checking, Checking])
    ensures ShadowNeverHarms(true, s, BURYING[..6])
    ensures ShadowRun(true, s, BURYING[..6]) == Shadow(Full, true, [Finished, Staging])
  {
    var s1, s2 := Shadow(Free, false, [Staging, Checking]), Shadow(Free, false, [Staging, Staging]);
    var s3, s4 := Shadow(Aside, false, [Making, Staging]), Shadow(Open, false, [Placing, Staging]);
    var s5, s6 := Shadow(Full, false, [Recording, Staging]), Shadow(Full, true, [Finished, Staging]);
    var a, b := Turn(0, false), Turn(1, false);
    Took(true, s5, a, s6, [], s6);
    Took(true, s4, a, s5, [a], s6);
    Took(true, s3, a, s4, [a, a], s6);
    Took(true, s2, a, s3, [a, a, a], s6);
    Took(true, s1, b, s2, [a, a, a, a], s6);
    Took(true, s, a, s1, [b, a, a, a, a], s6);
    assert BURYING[..6] == [a, b, a, a, a, a];
  }

  /** Without an extension nothing need raise: a second worker that checked before the first
      was done stages the finished folder, and buries the file one folder below its row. */
  lemma SecondWorkerBuriesTheFile(fs: Disk, rom: Rom, bytes: string)
    requires Ready(fs, rom, bytes) && rom.Extensionless()
    ensures var w := Run(Start(fs, 2), rom, BURYING);
            && w.converted && w.workers == [Finished, Finished]
            && !HeldOnce(w.fs, rom, bytes) && BytesAt(w.fs, rom.Final() + [rom.name], bytes)
  {
    hide Ready, Run, DiskOf, ShadowRun, ShadowNeverHarms, HeldOnce, LatePlaced;
    var s := Started(fs, rom, bytes, 2);
    assert s.workers == [Checking, Checking];
    BuryingShadow(s);
    hide Start;
    RunIsShadowed(s, fs, rom, bytes, BURYING[..6], BURYING[6..]);
    var go := Turn(1, false);
    assert BURYING[..6] + BURYING[6..] == BURYING && BURYING[6..] == [go, go, go, go];
    var t := ShadowRun(true, s, BURYING[..6]);
    hide Sane;
    Pictured(Full, fs, rom, bytes);
    LateRun(fs, rom, bytes, Cast(t, fs, rom, bytes));
    BuriedDeep(fs, rom, bytes);
  }

  /** A new folder in the place of the staged one, and that one moved inside it. */
  function LatePlaced(fs: Disk, rom: Rom, bytes: string): Disk {
    (Opened(LateStaged(fs, rom, bytes), rom) - {rom.Staged()} - {rom.Staged() + [rom.name]})
      [rom.Final() := Dir][rom.Final() + [rom.name] := File(bytes)]
  }

  lemma BelowStaged(fs: Disk, rom: Rom, bytes: string, made: Disk)
    requires Ready(fs, rom, bytes) && rom.Extensionless()
    requires made.Keys <= fs.Keys + {rom.Staged(), rom.Staged() + [rom.name], rom.Dest()}
    ensures forall q | q in made && Below(rom.Staged(), q) :: q == rom.Staged() + [rom.name]
    ensures !Below(rom.Staged(), rom.Final()) && rom.Final() !in made
  {
    ReadyPaths(fs, rom, bytes);
    forall q | q in fs ensures !Below(rom.Staged(), q) { NothingBelow(fs, rom.Staged(), q); }
    assert rom.Final()[..|rom.Staged()|] == Parent(rom.Final());
    assert Parent(rom.Staged() + [rom.name]) == rom.Staged();
  }

  lemma LatePlaces(fs: Disk, rom: Rom, bytes: string)
    requires Ready(fs, rom, bytes) && rom.Extensionless()
    ensures Move(Opened(LateStaged(fs, rom, bytes), rom), rom.Staged(), rom.Final()) == Some(LatePlaced(fs, rom, bytes))
  {
    ReadyPaths(fs, rom, bytes);
    var made := Opened(LateStaged(fs, rom, bytes), rom);
    BelowStaged(fs, rom, bytes, made);
    hide Move, Rooted, Below;
    MoveFolder(made, rom.Staged(), rom.Final(), rom.name);
  }

  lemma LateRun(fs: Disk, rom: Rom, bytes: string, w: World)
    requires Ready(fs, rom, bytes) && rom.Extensionless()
    requires w == World(Settled(fs, rom, bytes), true, [Finished, Staging])
    ensures var go := Turn(1, false);
            Run(w, rom, [go, go, go, go]) == World(LatePlaced(fs, rom, bytes), true, [Finished, Finished])
  {
    LateStages(fs, rom, bytes);
    LatePlaces(fs, rom, bytes);
    hide *;
    FourMore(w.fs, LateStaged(fs, rom, bytes), Opened(LateStaged(fs, rom, bytes), rom), LatePlaced(fs, rom, bytes), rom);
  }

  lemma FourMore(full: Disk, staged: Disk, made: Disk, placed: Disk, rom: Rom)
    requires rom.Extensionless() && Move(full, rom.Origin(), rom.Staged()) == Some(staged)
    requires MakeDirectory(staged, rom.Dest()) == Some(made) && Move(made, rom.Staged(), rom.Final()) == Some(placed)
    ensures var go := Turn(1, false);
            Run(World(full, true, [Finished, Staging]), rom, [go, go, go, go]) == World(placed, true, [Finished, Finished])
  {
    hide Move, MakeDirectory, Run;
    var go := Turn(1, false);
    var w, w1 := World(full, true, [Finished, Staging]), World(staged, true, [Finished, Making]);
    var w2, w3 := World(made, true, [Finished, Placing]), World(placed, true, [Finished, Recording]);
    var w4 := World(placed, true, [Finished, Finished]);
    assert Take(w, rom, go) == w1 && Take(w1, rom, go) == w2;
    assert Take(w2, rom, go) == w3 && Take(w3, rom, go) == w4;
    hide Take;
    RunNone(w4, rom);
    RunOne(w3, rom, go, []);
    RunOne(w2, rom, go, [go]);
    RunOne(w1, rom, go, [go, go]);
    RunOne(w, rom, go, [go, go, go]);
    assert [go] + [] == [go] && [go] + [go] == [go, go] && [go] + [go, go] == [go, go, go];
    assert [go] + [go, go, go] == [go, go, go, go];
  }

  lemma RunNone(w: World, rom: Rom)
    ensures Run(w, rom, []) == w
  {
  }

  lemma RunOne(w: World, rom: Rom, t: Turn, rest: seq<Turn>)
    ensures Run(w, rom, [t] + rest) == Run(Take(w, rom, t), rom, rest)
  {
    assert ([t] + rest)[1..] == rest;
  }

  lemma BuriedDeep(fs: Disk, rom: Rom, bytes: string)
    requires Ready(fs, rom, bytes) && rom.Extensionless()
    ensures var late := LatePlaced(fs, rom, bytes);
            !HeldOnce(late, rom, bytes) && BytesAt(late, rom.Final() + [rom.name], bytes)
  {
    ReadyPaths(fs, rom, bytes);
    assert |rom.Final() + [rom.name]| > |rom.Final()| > |rom.Staged()|;
  }
}
