/** Promotion of a single-file ROM to a folder ROM: a short transaction over a shared
    filesystem in which any operation may raise, undone by hand when one does. */
module Promotion {
  import opened Common

  type Path = seq<string>

  datatype Node = File(bytes: string) | Dir

  type Disk = map<Path, Node>

  // ---- The filesystem ----

  predicate IsDir(fs: Disk, p: Path) { p in fs && fs[p].Dir? }

  predicate IsFile(fs: Disk, p: Path) { p in fs && fs[p].File? }

  function Parent(p: Path): Path
    requires p != []
  {
    p[..|p| - 1]
  }

  predicate Below(p: Path, q: Path) { |p| < |q| && q[..|p|] == p }

  /** A directory tree: the library root is a directory and every entry hangs off one. */
  predicate Rooted(fs: Disk) {
    IsDir(fs, []) && forall p | p in fs && p != [] :: IsDir(fs, Parent(p))
  }

  predicate Empty(fs: Disk, p: Path) { forall q | q in fs :: !Below(p, q) }

  /** A final "." or empty name denotes the directory itself. */
  function Join(p: Path, name: string): Path {
    if name == "" || name == "." then p else p + [name]
  }

  function EnsureDir(fs: Disk, p: Path): (r: Option<Disk>)
    ensures r.Some? ==> forall q | q in fs :: q in r.value && r.value[q] == fs[q]
  {
    if p in fs then if fs[p].Dir? then Some(fs) else None
    else if p == [] then None
    else match EnsureDir(fs, Parent(p))
         case None => None
         case Some(above) => Some(above[p := Dir])
  }

  function MakeDirectory(fs: Disk, p: Path): Option<Disk> { EnsureDir(fs, p) }

  function RemoveDirectory(fs: Disk, p: Path): Option<Disk> {
    if IsDir(fs, p) then Some(map q | q in fs && q != p && !Below(p, q) :: fs[q]) else None
  }

  /** Move the entry at `src`, with everything below it, to the free path `dst`. */
  function Relocate(fs: Disk, src: Path, dst: Path): Disk
    requires src in fs
  {
    var carried := set q | q in fs && Below(src, q) :: dst + q[|src|..];
    (map q | q in fs && q != src && !Below(src, q) :: fs[q])[dst := fs[src]]
    + map q | q in carried && src + q[|dst|..] in fs :: fs[src + q[|dst|..]]
  }

  /** The destination's missing parents are made first; a destination that is a directory
      receives the source inside it, and an existing file is replaced by a file. */
  function Move(fs: Disk, src: Path, dst: Path): Option<Disk> {
    if src !in fs || src == [] || dst == [] then None
    else match EnsureDir(fs, Parent(dst))
         case None => None
         case Some(made) =>
           var target := if IsDir(made, dst) then dst + [src[|src| - 1]] else dst;
           if src == dst then Some(made)
           else if Below(src, target) || (IsDir(made, dst) && target in made) then None
           else if fs[src].File? then Some((made - {src})[target := fs[src]])
           else if target in made then None
           else Some(Relocate(made, src, target))
  }

  // ---- The ROM's rows ----

  datatype RomFile = RomFile(folder: Path, name: string)

  datatype Rom = Rom(at: Path, name: string, stem: string, files: seq<RomFile>)
  {
    function FullPath(): Path { at + [name] }

    predicate MultiFile() { exists i :: 0 <= i < |files| && files[i].folder != at }

    function TopLevel(n: nat): nat
      requires n <= |files|
    {
      if n == 0 then 0
      else TopLevel(n - 1) +
           (if files[n - 1].folder + [files[n - 1].name] == FullPath() || files[n - 1].folder == FullPath() then 1 else 0)
    }

    predicate SimpleSingleFile() { !MultiFile() && TopLevel(|files|) == 1 }

    function Origin(): Path { FullPath() }
    function Dest(): Path { Join(at, stem) }
    function Final(): Path { Dest() + [name] }
    function Staged(): Path { at + [STAGE_PREFIX + name] }
    predicate Extensionless() { stem == name }
  }

  const STAGE_PREFIX := ".romm_tmp_"

  /** Rename the ROM to its folder and point every file row into it. */
  function Converted(rom: Rom, folderStem: string): Rom {
    Rom(rom.at, rom.stem, folderStem, seq(|rom.files|, i requires 0 <= i < |rom.files| => rom.files[i].(folder := rom.Dest())))
  }

  // ---- The transaction ----

  /** Which of the transaction's operations raise before having any effect. */
  datatype Op = Stage | Make | Place | Convert | Unplace | Drop | Return

  type Faults = set<Op>

  function Attempt(fs: Disk, op: Op, faults: Faults, outcome: Option<Disk>): (r: (Disk, bool))
    ensures r == (fs, false) || (outcome.Some? && r == (outcome.value, true) && op !in faults)
  {
    if op in faults || outcome.None? then (fs, false) else (outcome.value, true)
  }

  datatype Progress = Progress(fs: Disk, moved: bool, ok: bool)

  predicate Collides(fs: Disk, rom: Rom) {
    if rom.Extensionless() then IsDir(fs, rom.Dest()) else rom.Dest() in fs
  }

  /** Extensionless, the file must step aside before the folder can take its name. */
  function Forward(fs: Disk, rom: Rom, faults: Faults): Progress {
    if rom.Extensionless() then
      var (staged, stepped) := Attempt(fs, Stage, faults, Move(fs, rom.Origin(), rom.Staged()));
      if !stepped then Progress(fs, false, false)
      else
        var (made, ready) := Attempt(staged, Make, faults, MakeDirectory(staged, rom.Dest()));
        if !ready then Progress(made, true, false)
        else
          var (placed, ok) := Attempt(made, Place, faults, Move(made, rom.Staged(), rom.Final()));
          Progress(placed, true, ok && Convert !in faults)
    else
      var (made, ready) := Attempt(fs, Make, faults, MakeDirectory(fs, rom.Dest()));
      if !ready then Progress(made, false, false)
      else
        var (placed, ok) := Attempt(made, Place, faults, Move(made, rom.Origin(), rom.Final()));
        Progress(placed, ok, ok && Convert !in faults)
  }

  /** Only an empty folder is dropped: anything left in it is someone else's. */
  function DropDir(fs: Disk, rom: Rom, faults: Faults): (Disk, bool) {
    if IsDir(fs, rom.Dest()) && Empty(fs, rom.Dest()) then
      Attempt(fs, Drop, faults, RemoveDirectory(fs, rom.Dest()))
    else (fs, true)
  }

  function Restore(fs: Disk, rom: Rom, moved: bool, faults: Faults): Disk {
    if moved && (rom.Final() in fs || rom.Staged() in fs) then
      var src := if rom.Final() in fs then rom.Final() else rom.Staged();
      if rom.Extensionless() then
        var (unplaced, ok) := if src == rom.Staged() then (fs, true)
                              else Attempt(fs, Unplace, faults, Move(fs, src, rom.Staged()));
        if !ok then unplaced
        else
          var (dropped, gone) := DropDir(unplaced, rom, faults);
          if !gone then dropped
          else Attempt(dropped, Return, faults, Move(dropped, rom.Staged(), rom.Origin())).0
      else
        var (returned, ok) := Attempt(fs, Return, faults, Move(fs, src, rom.Origin()));
        if !ok then returned else DropDir(returned, rom, faults).0
    else DropDir(fs, rom, faults).0
  }

  datatype Result = Unchanged | Promoted | AlreadyExists | Raised

  function Promote(fs: Disk, rom: Rom, folderStem: string, faults: Faults): (Disk, Rom, Result) {
    if !rom.SimpleSingleFile() then (fs, rom, Unchanged)
    else if Collides(fs, rom) then (fs, rom, AlreadyExists)
    else
      var p := Forward(fs, rom, faults);
      if p.ok then (p.fs, Converted(rom, folderStem), Promoted)
      else (Restore(p.fs, rom, p.moved, faults), rom, Raised)
  }

  /** The library on disk together with one ROM's rows, changed step by step. */
  class Library {
    var fs: Disk
    var rom: Rom

    method MoveFileOrFolder(op: Op, faults: Faults, src: Path, dst: Path) returns (ok: bool)
      modifies this`fs
      ensures (fs, ok) == Attempt(old(fs), op, faults, Move(old(fs), src, dst))
    {
      var outcome := Move(fs, src, dst);
      ok := op !in faults && outcome.Some?;
      if ok {
        fs := outcome.value;
      }
    }

    method MakeFolder(faults: Faults) returns (ok: bool)
      modifies this`fs
      ensures (fs, ok) == Attempt(old(fs), Make, faults, MakeDirectory(old(fs), rom.Dest()))
    {
      var outcome := MakeDirectory(fs, rom.Dest());
      ok := Make !in faults && outcome.Some?;
      if ok {
        fs := outcome.value;
      }
    }

    method DropFolder(faults: Faults) returns (ok: bool)
      modifies this`fs
      ensures (fs, ok) == DropDir(old(fs), rom, faults)
    {
      ok := true;
      if IsDir(fs, rom.Dest()) && Empty(fs, rom.Dest()) {
        var outcome := RemoveDirectory(fs, rom.Dest());
        ok := Drop !in faults && outcome.Some?;
        if ok {
          fs := outcome.value;
        }
      }
    }

    method RunForward(faults: Faults) returns (moved: bool, ok: bool)
      modifies this`fs
      ensures Progress(fs, moved, ok) == Forward(old(fs), rom, faults)
    {
      moved, ok := false, false;
      if rom.Extensionless() {
        moved := MoveFileOrFolder(Stage, faults, rom.Origin(), rom.Staged());
        if !moved { return; }
        ok := MakeFolder(faults);
        if !ok { return; }
        ok := MoveFileOrFolder(Place, faults, rom.Staged(), rom.Final());
      } else {
        var made := MakeFolder(faults);
        if !made { return; }
        moved := MoveFileOrFolder(Place, faults, rom.Origin(), rom.Final());
        ok := moved;
      }
      ok := ok && Convert !in faults;
    }

    method RunRestore(moved: bool, faults: Faults)
      modifies this`fs
      ensures fs == Restore(old(fs), rom, moved, faults)
    {
      if moved && (rom.Final() in fs || rom.Staged() in fs) {
        var src := if rom.Final() in fs then rom.Final() else rom.Staged();
        var ok := true;
        if rom.Extensionless() {
          if src != rom.Staged() {
            ok := MoveFileOrFolder(Unplace, faults, src, rom.Staged());
          }
          if ok { ok := DropFolder(faults); }
          if ok { ok := MoveFileOrFolder(Return, faults, rom.Staged(), rom.Origin()); }
        } else {
          ok := MoveFileOrFolder(Return, faults, src, rom.Origin());
          if ok { ok := DropFolder(faults); }
        }
      } else {
        var _ := DropFolder(faults);
      }
    }

    method PromoteSingleFileToFolder(folderStem: string, faults: Faults) returns (result: Result)
      modifies this
      ensures (fs, rom, result) == Promote(old(fs), old(rom), folderStem, faults)
    {
      if !rom.SimpleSingleFile() {
        return Unchanged;
      }
      if Collides(fs, rom) {
        return AlreadyExists;
      }
      var moved, ok := RunForward(faults);
      if ok {
        rom := Converted(rom, folderStem);
        return Promoted;
      }
      RunRestore(moved, faults);
      return Raised;
    }
  }
}
