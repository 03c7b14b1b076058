/** Whichever step of a promotion raises: where the bytes are, what is put back, what is
    left alone, and the one folder shape for which undoing goes wrong. */
module PromotionProofs {
  import opened Common
  import opened Promotion

  // ---- Single operations ----

  lemma MoveFile(fs: Disk, src: Path, dst: Path)
    requires IsFile(fs, src) && src != [] && dst != [] && dst !in fs && IsDir(fs, Parent(dst)) && !Below(src, dst)
    ensures Move(fs, src, dst) == Some((fs - {src})[dst := fs[src]])
  {
  }

  lemma {:induction false} NothingBelow(fs: Disk, p: Path, q: Path)
    requires Rooted(fs) && !IsDir(fs, p) && q in fs
    ensures !Below(p, q)
    decreases |q|
  {
    if |p| < |q| {
      assert Parent(q)[..|p|] == q[..|p|];
      if |p| < |q| - 1 {
        NothingBelow(fs, p, Parent(q));
      } else {
        assert Parent(q) == q[..|p|];
      }
    }
  }

  /** The promotion's starting point: the ROM's file is where its row says, nothing sits on
      the staging path and the folder name is free. */
  predicate Ready(fs: Disk, rom: Rom, bytes: string) {
    && Rooted(fs)
    && rom.Origin() in fs && fs[rom.Origin()] == File(bytes)
    && rom.Staged() !in fs
    && !Collides(fs, rom)
  }

  lemma ReadyPaths(fs: Disk, rom: Rom, bytes: string)
    requires Ready(fs, rom, bytes)
    ensures IsDir(fs, rom.at) && rom.Dest() == rom.at + [rom.stem] && !IsDir(fs, rom.Dest())
    ensures rom.Dest() == rom.Origin() <==> rom.Extensionless()
    ensures rom.Final() !in fs && rom.Final() != rom.Staged() && rom.Final() != rom.Origin() && rom.Final() != rom.Dest()
    ensures rom.Staged() != rom.Origin()
    ensures Parent(rom.Origin()) == Parent(rom.Staged()) == Parent(rom.Dest()) == rom.at && Parent(rom.Final()) == rom.Dest()
    ensures forall q | q in fs :: !Below(rom.Dest(), q)
  {
    assert Parent(rom.Origin()) == rom.at;
    assert Parent(rom.at + [rom.stem]) == rom.at;
    assert rom.Origin()[|rom.at|] == rom.name && rom.Staged()[|rom.at|] == STAGE_PREFIX + rom.name;
    assert |STAGE_PREFIX + rom.name| != |rom.name|;
    assert (rom.at + [rom.stem])[|rom.at|] == rom.stem;
    assert Parent(rom.Final()) == rom.Dest();
    forall q | q in fs ensures !Below(rom.Dest(), q) { NothingBelow(fs, rom.Dest(), q); }
    assert Parent(rom.Staged()) == rom.at;
  }

  // ---- The disk after each forward step ----

  function Stepped(fs: Disk, rom: Rom, bytes: string): Disk { (fs - {rom.Origin()})[rom.Staged() := File(bytes)] }

  function Opened(fs: Disk, rom: Rom): Disk { fs[rom.Dest() := Dir] }

  function Settled(fs: Disk, rom: Rom, bytes: string): Disk {
    (fs - {rom.Origin()})[rom.Dest() := Dir][rom.Final() := File(bytes)]
  }

  lemma OpenDest(fs: Disk, rom: Rom)
    requires IsDir(fs, rom.at) && rom.Dest() == rom.at + [rom.stem] && rom.Dest() !in fs
    ensures MakeDirectory(fs, rom.Dest()) == Some(Opened(fs, rom))
  {
    assert Parent(rom.Dest()) == rom.at && EnsureDir(fs, rom.at) == Some(fs);
  }

  lemma ForwardWithExtension(fs: Disk, rom: Rom, bytes: string, faults: Faults)
    requires Ready(fs, rom, bytes) && !rom.Extensionless()
    ensures Forward(fs, rom, faults) ==
            if Make in faults then Progress(fs, false, false)
            else if Place in faults then Progress(Opened(fs, rom), false, false)
            else Progress(Settled(fs, rom, bytes), true, Convert !in faults)
  {
    ReadyPaths(fs, rom, bytes);
    hide Rooted;
    OpenDest(fs, rom);
    var made := Opened(fs, rom);
    MoveFile(made, rom.Origin(), rom.Final());
    assert (made - {rom.Origin()})[rom.Final() := File(bytes)] == Settled(fs, rom, bytes);
  }

  lemma ForwardExtensionless(fs: Disk, rom: Rom, bytes: string, faults: Faults)
    requires Ready(fs, rom, bytes) && rom.Extensionless()
    ensures Forward(fs, rom, faults) ==
            if Stage in faults then Progress(fs, false, false)
            else if Make in faults then Progress(Stepped(fs, rom, bytes), true, false)
            else if Place in faults then Progress(Opened(Stepped(fs, rom, bytes), rom), true, false)
            else Progress(Settled(fs, rom, bytes), true, Convert !in faults)
  {
    StepAside(fs, rom, bytes);
    hide Ready, Settled, Stepped, Opened, Move;
  }

  lemma StepAside(fs: Disk, rom: Rom, bytes: string)
    requires Ready(fs, rom, bytes) && rom.Extensionless()
    ensures var stepped := Stepped(fs, rom, bytes);
            && Move(fs, rom.Origin(), rom.Staged()) == Some(stepped)
            && MakeDirectory(stepped, rom.Dest()) == Some(Opened(stepped, rom))
            && Move(Opened(stepped, rom), rom.Staged(), rom.Final()) == Some(Settled(fs, rom, bytes))
  {
    ReadyPaths(fs, rom, bytes);
    hide Rooted;
    MoveFile(fs, rom.Origin(), rom.Staged());
    var stepped := Stepped(fs, rom, bytes);
    OpenDest(stepped, rom);
    var made := Opened(stepped, rom);
    assert rom.Final()[..|rom.Staged()|] == Parent(rom.Final());
    MoveFile(made, rom.Staged(), rom.Final());
    assert (made - {rom.Staged()})[rom.Final() := File(bytes)] == Settled(fs, rom, bytes);
  }

  // ---- Undoing ----

  lemma DropEmpty(fs: Disk, rom: Rom)
    requires rom.Dest() !in fs && forall q | q in fs :: !Below(rom.Dest(), q)
    ensures DropDir(Opened(fs, rom), rom, {}) == (fs, true)
    ensures forall faults: Faults :: DropDir(Opened(fs, rom), rom, faults) ==
                                     if Drop in faults then (Opened(fs, rom), false) else (fs, true)
  {
    var made := Opened(fs, rom);
    assert Empty(made, rom.Dest());
    assert (map q | q in made && q != rom.Dest() && !Below(rom.Dest(), q) :: made[q]) == fs;
  }

  lemma RestoreWithExtension(fs: Disk, rom: Rom, bytes: string, faults: Faults)
    requires Ready(fs, rom, bytes) && !rom.Extensionless()
    ensures Restore(fs, rom, false, faults) == fs
    ensures Restore(Opened(fs, rom), rom, false, faults) == if Drop in faults then Opened(fs, rom) else fs
    ensures Restore(Settled(fs, rom, bytes), rom, true, faults) ==
            if Return in faults then Settled(fs, rom, bytes) else if Drop in faults then Opened(fs, rom) else fs
  {
    ReadyPaths(fs, rom, bytes);
    hide Rooted;
    DropEmpty(fs, rom);
    var placed := Settled(fs, rom, bytes);
    MoveFile(placed, rom.Final(), rom.Origin());
    assert (placed - {rom.Final()})[rom.Origin() := File(bytes)] == Opened(fs, rom);
  }

  lemma RestoreExtensionless(fs: Disk, rom: Rom, bytes: string, faults: Faults)
    requires Ready(fs, rom, bytes) && rom.Extensionless()
    ensures Restore(fs, rom, false, faults) == fs
    ensures var stepped := Stepped(fs, rom, bytes);
            && Restore(stepped, rom, true, faults) == (if Return in faults then stepped else fs)
            && Restore(Opened(stepped, rom), rom, true, faults) ==
               (if Drop in faults then Opened(stepped, rom) else if Return in faults then stepped else fs)
            && Restore(Settled(fs, rom, bytes), rom, true, faults) ==
               (if Unplace in faults then Settled(fs, rom, bytes)
                else if Drop in faults then Opened(stepped, rom)
                else if Return in faults then stepped else fs)
  {
    ReadyPaths(fs, rom, bytes);
    hide Rooted;
    var stepped := Stepped(fs, rom, bytes);
    DropEmpty(stepped, rom);
    MoveFile(stepped, rom.Staged(), rom.Origin());
    assert (stepped - {rom.Staged()})[rom.Origin() := File(bytes)] == fs;
    var placed := Settled(fs, rom, bytes);
    MoveFile(placed, rom.Final(), rom.Staged());
    assert (placed - {rom.Final()})[rom.Staged() := File(bytes)] == Opened(stepped, rom);
  }

  // ---- Main results ----

  /** Whether some forward step raises. */
  predicate Interrupted(rom: Rom, faults: Faults) {
    (rom.Extensionless() && Stage in faults) || Make in faults || Place in faults || Convert in faults
  }

  predicate UndoWorks(faults: Faults) { Unplace !in faults && Drop !in faults && Return !in faults }

  predicate Ending(fs: Disk, rom: Rom, bytes: string, fs': Disk) {
    || fs' == fs
    || fs' == Settled(fs, rom, bytes)
    || (if rom.Extensionless() then fs' == Stepped(fs, rom, bytes) || fs' == Opened(Stepped(fs, rom, bytes), rom)
        else fs' == Opened(fs, rom))
  }

  /** Every disk a promotion can leave behind. */
  lemma Endings(fs: Disk, rom: Rom, stem: string, bytes: string, faults: Faults)
    requires Ready(fs, rom, bytes) && rom.SimpleSingleFile()
    ensures !Interrupted(rom, faults) ==>
              Promote(fs, rom, stem, faults) == (Settled(fs, rom, bytes), Converted(rom, stem), Promoted)
    ensures Interrupted(rom, faults) ==>
              && Promote(fs, rom, stem, faults).1 == rom && Promote(fs, rom, stem, faults).2 == Raised
              && (UndoWorks(faults) ==> Promote(fs, rom, stem, faults).0 == fs)
    ensures Ending(fs, rom, bytes, Promote(fs, rom, stem, faults).0)
  {
    assert !Collides(fs, rom);
    hide Settled, Stepped, Opened, Ready, Collides, Restore, Forward, Converted;
    if rom.Extensionless() {
      ForwardExtensionless(fs, rom, bytes, faults);
      RestoreExtensionless(fs, rom, bytes, faults);
    } else {
      ForwardWithExtension(fs, rom, bytes, faults);
      RestoreWithExtension(fs, rom, bytes, faults);
    }
  }

  predicate BytesAt(fs: Disk, p: Path, bytes: string) { p in fs && fs[p] == File(bytes) }

  /** Exactly one of the three paths is a file, and it holds the ROM's bytes. */
  predicate HeldOnce(fs: Disk, rom: Rom, bytes: string) {
    var o, s, f := BytesAt(fs, rom.Origin(), bytes), BytesAt(fs, rom.Staged(), bytes), BytesAt(fs, rom.Final(), bytes);
    || (o && !IsFile(fs, rom.Staged()) && !IsFile(fs, rom.Final()))
    || (s && !IsFile(fs, rom.Origin()) && !IsFile(fs, rom.Final()))
    || (f && !IsFile(fs, rom.Origin()) && !IsFile(fs, rom.Staged()))
  }

  predicate Own(rom: Rom, p: Path) { p == rom.Origin() || p == rom.Staged() || p == rom.Dest() || p == rom.Final() }

  predicate SameAt(fs: Disk, fs': Disk, p: Path) { (p in fs' <==> p in fs) && (p in fs ==> fs'[p] == fs[p]) }

  lemma EndingsHold(fs: Disk, rom: Rom, bytes: string, fs': Disk)
    requires Ready(fs, rom, bytes) && Ending(fs, rom, bytes, fs')
    ensures HeldOnce(fs', rom, bytes)
  {
    ReadyPaths(fs, rom, bytes);
    hide Rooted, Collides, Below, Parent;
  }

  lemma EndingsTouch(fs: Disk, rom: Rom, bytes: string, fs': Disk, p: Path)
    requires Ready(fs, rom, bytes) && Ending(fs, rom, bytes, fs') && !Own(rom, p)
    ensures SameAt(fs, fs', p)
  {
    hide Ready;
  }

  /** Whatever raises, forward or while undoing: the bytes are in exactly one of the three
      places, and no path but this ROM's own has changed. */
  lemma BytesSurvive(fs: Disk, rom: Rom, stem: string, bytes: string, faults: Faults)
    requires Ready(fs, rom, bytes) && rom.SimpleSingleFile()
    ensures HeldOnce(Promote(fs, rom, stem, faults).0, rom, bytes)
    ensures forall p | !Own(rom, p) :: SameAt(fs, Promote(fs, rom, stem, faults).0, p)
  {
    Endings(fs, rom, stem, bytes, faults);
    hide Promote, Ready, Ending, HeldOnce, Own, SameAt;
    var fs' := Promote(fs, rom, stem, faults).0;
    EndingsHold(fs, rom, bytes, fs');
    forall p | !Own(rom, p) ensures SameAt(fs, fs', p) { EndingsTouch(fs, rom, bytes, fs', p); }
  }

  /** When the undoing itself works, a promotion that raises leaves the disk and the rows
      exactly as they were. */
  lemma RollbackIsExact(fs: Disk, rom: Rom, stem: string, bytes: string, faults: Faults)
    requires Ready(fs, rom, bytes) && rom.SimpleSingleFile() && UndoWorks(faults)
    ensures Promote(fs, rom, stem, faults).2.Promoted? || Promote(fs, rom, stem, faults) == (fs, rom, Raised)
  {
    Endings(fs, rom, stem, bytes, faults);
  }

  /** A promoted ROM is not simple any more, so promoting it again changes nothing. */
  lemma PromotedIsStable(fs: Disk, rom: Rom, stem: string, stem': string, bytes: string, faults: Faults, faults': Faults)
    requires Ready(fs, rom, bytes) && Promote(fs, rom, stem, faults).2.Promoted?
    ensures var (fs', rom', _) := Promote(fs, rom, stem, faults);
            Promote(fs', rom', stem', faults') == (fs', rom', Unchanged)
  {
    ReadyPaths(fs, rom, bytes);
    HasTopLevelFile(rom, |rom.files|);
    var i :| 0 <= i < |rom.files|;
    assert Converted(rom, stem).files[i].folder == rom.Dest();
    assert rom.Dest()[..|rom.at|] == rom.at && |rom.Dest()| != |rom.at|;
  }

  lemma {:induction false} HasTopLevelFile(rom: Rom, n: nat)
    requires n <= |rom.files| && rom.TopLevel(n) > 0
    ensures exists i :: 0 <= i < n && (rom.files[i].folder + [rom.files[i].name] == rom.FullPath() || rom.files[i].folder == rom.FullPath())
  {
    if n > 0 && rom.TopLevel(n - 1) > 0 { HasTopLevelFile(rom, n - 1); }
  }

  // ---- Do the rows still name existing bytes? ----

  predicate RowsBacked(fs: Disk, rom: Rom) {
    forall i | 0 <= i < |rom.files| :: IsFile(fs, rom.files[i].folder + [rom.files[i].name])
  }

  /** Converting repoints every row into the folder but moves one file, so the rows of a
      promoted ROM all name existing bytes exactly when it had no row beside that file's. */
  lemma RowsFollowBytes(fs: Disk, rom: Rom, stem: string, bytes: string, faults: Faults)
    requires Ready(fs, rom, bytes) && Promote(fs, rom, stem, faults).2.Promoted?
    ensures RowsBacked(Promote(fs, rom, stem, faults).0, Promote(fs, rom, stem, faults).1) <==> |rom.files| == 1
  {
    ReadyPaths(fs, rom, bytes);
    hide Rooted;
    Endings(fs, rom, stem, bytes, faults);
    var fs', rom' := Settled(fs, rom, bytes), Converted(rom, stem);
    HasTopLevelFile(rom, |rom.files|);
    var k :| 0 <= k < |rom.files| && (rom.files[k].folder + [rom.files[k].name] == rom.FullPath() || rom.files[k].folder == rom.FullPath());
    assert rom.files[k].folder == rom.at;
    forall i | 0 <= i < |rom.files|
      ensures IsFile(fs', rom'.files[i].folder + [rom'.files[i].name]) <==> rom.files[i].name == rom.name
    {
      var p := rom.Dest() + [rom.files[i].name];
      assert rom'.files[i] == RomFile(rom.Dest(), rom.files[i].name);
      assert p[|rom.Dest()|] == rom.files[i].name;
      if rom.files[i].name != rom.name {
        assert Below(rom.Dest(), p) && p != rom.Final();
      }
    }
    NamesakesCounted(rom, |rom.files|);
  }

  /** Files that all sit beside the ROM are counted as top level by name alone. */
  lemma {:induction false} NamesakesCounted(rom: Rom, n: nat)
    requires n <= |rom.files| && !rom.MultiFile()
    ensures rom.TopLevel(n) <= n
    ensures rom.TopLevel(n) == n <==> forall i | 0 <= i < n :: rom.files[i].name == rom.name
  {
    if n > 0 {
      NamesakesCounted(rom, n - 1);
      assert rom.files[n - 1].folder == rom.at;
      assert rom.FullPath()[|rom.at|] == rom.name;
      assert (rom.at + [rom.files[n - 1].name])[|rom.at|] == rom.files[n - 1].name;
    }
  }

  // ---- When someone else is in the folder ----

  /** The file taken back out of its folder, to the staging path. */
  function TakenOut(fs: Disk, rom: Rom, bytes: string): Disk {
    (fs - {rom.Final()})[rom.Staged() := File(bytes)]
  }

  predicate Alone(fs: Disk, rom: Rom) {
    forall q | q in fs && Below(rom.Origin(), q) :: q == rom.Final()
  }

  function Inside(rom: Rom): Path { rom.Origin() + [STAGE_PREFIX + rom.name] }

  predicate InFolder(fs: Disk, rom: Rom, bytes: string) {
    && Rooted(fs) && rom.Extensionless() && rom.Dest() == rom.Origin() && rom.Staged() !in fs
    && IsDir(fs, rom.Origin()) && BytesAt(fs, rom.Final(), bytes)
  }

  lemma RemoveEmpty(fs: Disk, p: Path)
    requires IsDir(fs, p) && Empty(fs, p)
    ensures RemoveDirectory(fs, p) == Some(fs - {p})
  {
    assert (map q | q in fs && q != p && !Below(p, q) :: fs[q]) == fs - {p};
  }

  lemma MoveInto(fs: Disk, src: Path, dst: Path)
    requires IsFile(fs, src) && src != [] && dst != [] && IsDir(fs, dst) && IsDir(fs, Parent(dst))
    requires !Below(src, dst + [src[|src| - 1]])
    ensures var target := dst + [src[|src| - 1]];
            Move(fs, src, dst) == if target in fs then None else Some((fs - {src})[target := fs[src]])
  {
    assert EnsureDir(fs, Parent(dst)) == Some(fs);
  }

  lemma AloneIsEmpty(fs: Disk, rom: Rom, bytes: string)
    requires InFolder(fs, rom, bytes)
    ensures Empty(TakenOut(fs, rom, bytes), rom.Origin()) <==> Alone(fs, rom)
  {
    OutOfTheFolder(fs, rom, bytes);
    hide Rooted, Below;
    var out := TakenOut(fs, rom, bytes);
    if q :| q in fs && Below(rom.Origin(), q) && q != rom.Final() {
      assert q in out;
    }
  }

  lemma DropWhenAlone(fs: Disk, rom: Rom, bytes: string)
    requires InFolder(fs, rom, bytes) && Alone(fs, rom)
    ensures var out := TakenOut(fs, rom, bytes);
            && DropDir(out, rom, {}) == (out - {rom.Origin()}, true)
            && Move(out - {rom.Origin()}, rom.Staged(), rom.Origin())
               == Some((out - {rom.Origin()} - {rom.Staged()})[rom.Origin() := File(bytes)])
  {
    OutOfTheFolder(fs, rom, bytes);
    AloneIsEmpty(fs, rom, bytes);
    var out := TakenOut(fs, rom, bytes);
    assert Parent(rom.Origin()) == rom.at && rom.at != rom.Origin() && rom.at != rom.Final() by {
      assert |rom.at| < |rom.Origin()| < |rom.Final()|;
    }
    hide Rooted, Below, Empty, Alone;
    RemoveEmpty(out, rom.Origin());
    MoveFile(out - {rom.Origin()}, rom.Staged(), rom.Origin());
  }

  lemma KeepWhenShared(fs: Disk, rom: Rom, bytes: string)
    requires InFolder(fs, rom, bytes) && !Alone(fs, rom)
    ensures var out := TakenOut(fs, rom, bytes);
            && DropDir(out, rom, {}) == (out, true)
            && Move(out, rom.Staged(), rom.Origin())
               == if Inside(rom) in fs then None else Some((out - {rom.Staged()})[Inside(rom) := File(bytes)])
  {
    OutOfTheFolder(fs, rom, bytes);
    AloneIsEmpty(fs, rom, bytes);
    var out := TakenOut(fs, rom, bytes);
    assert rom.Staged()[|rom.Staged()| - 1] == STAGE_PREFIX + rom.name;
    assert Parent(rom.Origin()) == rom.at && rom.at != rom.Final() by {
      assert |rom.at| < |rom.Origin()| < |rom.Final()|;
    }
    assert !Below(rom.Staged(), Inside(rom)) by {
      assert Inside(rom)[..|rom.Staged()|] == rom.Origin();
    }
    hide Rooted, Below, Empty, Alone;
    MoveInto(out, rom.Staged(), rom.Origin());
  }

  lemma ReturnedWhenAlone(fs: Disk, rom: Rom, bytes: string)
    requires InFolder(fs, rom, bytes) && Alone(fs, rom)
    ensures BytesAt(Restore(fs, rom, true, {}), rom.Origin(), bytes)
  {
    hide Move, DropDir, Rooted, Alone, Below, IsDir;
    OutOfTheFolder(fs, rom, bytes);
    DropWhenAlone(fs, rom, bytes);
  }

  lemma StrandedWhenShared(fs: Disk, rom: Rom, bytes: string)
    requires InFolder(fs, rom, bytes) && !Alone(fs, rom)
    ensures var fs' := Restore(fs, rom, true, {});
            && !BytesAt(fs', rom.Origin(), bytes)
            && BytesAt(fs', if Inside(rom) in fs then rom.Staged() else Inside(rom), bytes)
  {
    assert !BytesAt(fs, rom.Origin(), bytes);
    hide Move, DropDir, Rooted, Alone, Below, IsDir;
    OutOfTheFolder(fs, rom, bytes);
    KeepWhenShared(fs, rom, bytes);
  }

  /** Undoing an extensionless promotion puts the file back exactly when the folder holds
      nothing else: otherwise the folder stays, and the move back lands the file inside it,
      under its staging name, or leaves it staged when that name is taken. */
  lemma ExtensionlessReturnExactly(fs: Disk, rom: Rom, bytes: string)
    requires InFolder(fs, rom, bytes)
    ensures var fs' := Restore(fs, rom, true, {});
            && (BytesAt(fs', rom.Origin(), bytes) <==> Alone(fs, rom))
            && (!Alone(fs, rom) ==> BytesAt(fs', if Inside(rom) in fs then rom.Staged() else Inside(rom), bytes))
  {
    if Alone(fs, rom) { ReturnedWhenAlone(fs, rom, bytes); } else { StrandedWhenShared(fs, rom, bytes); }
    hide InFolder, Restore, Alone;
  }

  lemma OutOfTheFolder(fs: Disk, rom: Rom, bytes: string)
    requires InFolder(fs, rom, bytes)
    ensures Move(fs, rom.Final(), rom.Staged()) == Some(TakenOut(fs, rom, bytes))
    ensures IsDir(fs, rom.at) && rom.Staged() != rom.Origin() && rom.Staged() != rom.Final() && rom.Final() != rom.Origin()
    ensures !Below(rom.Origin(), rom.Staged()) && !Below(rom.Origin(), rom.at) && !Below(rom.Staged(), rom.Origin())
    ensures Inside(rom) != rom.Final() && Inside(rom) != rom.Staged() && Inside(rom) != rom.Origin()
  {
    assert Parent(rom.Origin()) == rom.at && Parent(rom.Staged()) == rom.at;
    assert rom.Origin()[|rom.at|] == rom.name && rom.Staged()[|rom.at|] == STAGE_PREFIX + rom.name;
    assert |STAGE_PREFIX + rom.name| != |rom.name|;
    assert rom.Final()[|rom.Origin()|] == rom.name;
    assert (rom.Origin() + [STAGE_PREFIX + rom.name])[|rom.Origin()|] == STAGE_PREFIX + rom.name;
    MoveFile(fs, rom.Final(), rom.Staged());
  }

  /** A promoted ROM is named after its folder, which is where its file now lies. */
  lemma PromotedNamesItsFolder(fs: Disk, rom: Rom, stem: string, bytes: string, faults: Faults)
    requires Ready(fs, rom, bytes) && Promote(fs, rom, stem, faults).2.Promoted?
    ensures var (fs', rom', _) := Promote(fs, rom, stem, faults);
            && rom'.at == rom.at && rom'.name == rom.stem && rom'.stem == stem
            && IsDir(fs', rom'.FullPath()) && BytesAt(fs', rom'.FullPath() + [rom.name], bytes)
            && |rom'.files| == |rom.files|
            && forall i | 0 <= i < |rom.files| :: rom'.files[i] == RomFile(rom'.FullPath(), rom.files[i].name)
  {
    ReadyPaths(fs, rom, bytes);
    hide Rooted;
    Endings(fs, rom, stem, bytes, faults);
    hide Promote, Ready;
  }

  // ---- What a promotion needs ----

  /** A promotion is ready exactly when the file is where its row says, the staging name is free,
      and so is the folder's, which the file itself may have. */
  lemma ReadyExactly(fs: Disk, rom: Rom, bytes: string)
    ensures Ready(fs, rom, bytes) <==>
            && Rooted(fs) && BytesAt(fs, rom.at + [rom.name], bytes)
            && rom.at + [".romm_tmp_" + rom.name] !in fs
            && rom.stem != "" && rom.stem != "." && (rom.stem != rom.name ==> rom.at + [rom.stem] !in fs)
  {
    if Rooted(fs) && rom.at + [rom.name] in fs {
      assert Parent(rom.at + [rom.name]) == rom.at;
    }
    assert rom.stem != rom.name ==> (rom.at + [rom.stem])[|rom.at|] != (rom.at + [rom.name])[|rom.at|];
  }

  /** A ROM that is no simple single file is left as it is, one whose folder name is taken is
      refused, and nothing changes either way. */
  lemma LeftAloneExactly(fs: Disk, rom: Rom, folderStem: string, faults: Faults)
    requires Rooted(fs) && IsDir(fs, rom.at)
    ensures var (fs', rom', result) := Promote(fs, rom, folderStem, faults);
            var taken := rom.stem == "" || rom.stem == "."
                         || if rom.stem == rom.name then IsDir(fs, rom.at + [rom.stem]) else rom.at + [rom.stem] in fs;
            && (result.Unchanged? <==> rom.MultiFile() || rom.TopLevel(|rom.files|) != 1)
            && (result.AlreadyExists? <==> !result.Unchanged? && taken)
            && (result.Unchanged? || result.AlreadyExists? ==> fs' == fs && rom' == rom)
  {
    hide Forward, Restore, Converted, Rooted;
  }

  /** Moving something to where it is changes nothing. */
  lemma MoveOntoItself(fs: Disk, src: Path)
    requires Rooted(fs) && src in fs && src != []
    ensures Move(fs, src, src) == Some(fs)
  {
  }
}
