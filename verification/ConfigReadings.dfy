/** What a configuration file means, path by path, and what the setters leave, setting by
    setting. */
module ConfigReadings {
  import opened Common
  import opened ConfigStore
  import CP = ConfigStoreProofs
  import T = Templates

  // ---- Dotted paths ----

  /** A dotted lookup; a step into anything but a dictionary finds nothing. */
  function Lookup(y: Yaml, path: seq<Section>): Option<Yaml> {
    if path == [] then Some(y)
    else if y.Dict? && Sec(path[0]) in y.entries then Lookup(y.entries[Sec(path[0])], path[1..]) else None
  }

  lemma {:induction false} LookupStep(y: Yaml, path: seq<Section>, s: Section)
    ensures Lookup(y, path + [s]) == Child(Lookup(y, path), s)
  {
    if path == [] {
      assert (path + [s])[1..] == [];
    } else {
      assert (path + [s])[1..] == path[1..] + [s];
      if y.Dict? && Sec(path[0]) in y.entries { LookupStep(y.entries[Sec(path[0])], path[1..], s); }
    }
  }

  lemma Lookups(y: Yaml, a: Section, b: Section, c: Section, d: Section)
    ensures Lookup(y, [a]) == Child(Some(y), a)
    ensures Lookup(y, [a, b]) == Child(Child(Some(y), a), b)
    ensures Lookup(y, [a, b, c]) == Child(Child(Child(Some(y), a), b), c)
    ensures Lookup(y, [a, b, c, d]) == Child(Child(Child(Child(Some(y), a), b), c), d)
  {
    LookupStep(y, [], a);
    LookupStep(y, [a], b);
    LookupStep(y, [a, b], c);
    LookupStep(y, [a, b, c], d);
    assert Lookup(y, []) == Some(y);
    hide Lookup, Child;
    assert [] + [a] == [a] && [a] + [b] == [a, b] && [a, b] + [c] == [a, b, c] && [a, b, c] + [d] == [a, b, c, d];
  }

  // ---- Where each setting is kept ----

  function PathOf(p: Plain): seq<Section> {
    match p
    case PSkipHash => [Filesystem, SkipHash]
    case PSkipTitleId => [Filesystem, SkipTitleId]
    case PEmbedTitleIds => [Filesystem, EmbedTitleIds]
    case PDebug => [Emulatorjs, Debug]
    case PCacheLimit => [Emulatorjs, CacheLimit]
    case PDisableAutoUnload => [Emulatorjs, DisableAutoUnload]
    case PDisableBatchBootup => [Emulatorjs, DisableBatchBootup]
    case PAutoSaveSync => [Emulatorjs, AutoSaveSync]
    case PNetplay => [Emulatorjs, Netplay, Enabled]
    case PIceServers => [Emulatorjs, Netplay, IceServers]
    case PSettings => [Emulatorjs, Settings]
    case PMetadata => [Scan, Priority, Metadata]
    case PArtwork => [Scan, Priority, Artwork]
    case PRegion => [Scan, Priority, Region]
    case PLanguage => [Scan, Priority, Language]
    case PGamelistExport => [Scan, Gamelist, Export]
    case PPegasusExport => [Scan, Pegasus, Export]
  }

  function ExclusionPath(x: Exclusion): seq<Section> {
    match x
    case ExPlatforms => [Exclude, Platforms]
    case ExSingleExt => [Exclude, Roms, SingleFile, Extensions]
    case ExSingleFiles => [Exclude, Roms, SingleFile, Names]
    case ExMultiFiles => [Exclude, Roms, MultiFile, Names]
    case ExPartsExt => [Exclude, Roms, MultiFile, Parts, Extensions]
    case ExPartsFiles => [Exclude, Roms, MultiFile, Parts, Names]
  }

  lemma FoundAtItsPath(raw: Yaml, p: Plain)
    ensures Find(raw, p) == Lookup(raw, PathOf(p))
  {
    var path := PathOf(p);
    if |path| == 2 { Lookups(raw, path[0], path[1], path[1], path[1]); }
    else { Lookups(raw, path[0], path[1], path[2], path[2]); }
    hide Lookup, Child;
  }

  lemma ListedAtItsPath(raw: Yaml, x: Exclusion)
    ensures FindExclusion(raw, x) == Lookup(raw, ExclusionPath(x))
  {
    var path := ExclusionPath(x);
    if |path| == 2 { Lookups(raw, path[0], path[1], path[1], path[1]); }
    else { Lookups(raw, path[0], path[1], path[2], path[3]); }
    if |path| == 5 {
      LookupStep(raw, path[..4], path[4]);
      assert path[..4] + [path[4]] == path && path[..4] == [path[0], path[1], path[2], path[3]];
    }
    hide Lookup, Child;
  }

  // ---- Which files are refused ----

  predicate Silent(y: Option<Yaml>) { y.None? || y.value.Null? }
  predicate FlagOr(y: Option<Yaml>) { y.Some? ==> y.value.Bool? }
  predicate ListOr(y: Option<Yaml>) { y.Some? ==> y.value.List? }
  predicate TextOr(y: Option<Yaml>) { y.Some? ==> y.value.Str? }
  predicate TextsOr(y: Option<Yaml>) { y.Some? ==> y.value.List? && forall t | t in y.value.items :: t.Str? }

  /** Platform folders or cores by name, each with a non-empty text. */
  predicate NamesOr(y: Option<Yaml>) {
    || y.None? || y.value == Null || y.value == Bool(false) || y.value == Int(0) || y.value == Str("") || y.value == List([])
    || (y.value.Dict? && forall k | k in y.value.entries ::
          !k.Sec? && y.value.entries[k].Str? && y.value.entries[k].text != "")
  }

  predicate LimitOr(y: Option<Yaml>) { y.Some? ==> y.value.Null? || y.value.Int? || y.value.Bool? }

  predicate DictsOr(y: Option<Yaml>) {
    y.Some? ==> y.value.Dict? && forall k | k in y.value.entries :: y.value.entries[k].Dict?
  }

  /** The three folder settings whose kind nobody checks. */
  predicate SettingFits(p: Plain, y: Option<Yaml>) {
    match p
    case PSkipHash => true
    case PSkipTitleId => true
    case PEmbedTitleIds => true
    case PCacheLimit => LimitOr(y)
    case PSettings => DictsOr(y)
    case _ => if p.PIceServers? || p.PMetadata? || p.PArtwork? || p.PRegion? || p.PLanguage? then ListOr(y) else FlagOr(y)
  }

  predicate PlainFits(raw: Yaml) { forall p: Plain :: SettingFits(p, Lookup(raw, PathOf(p))) }

  /** Each of these settings is the value at its path, or its default. */
  predicate PlainAsRead(raw: Yaml, plain: map<Plain, Yaml>) {
    forall p: Plain :: p in plain && plain[p] == Lookup(raw, PathOf(p)).GetOr(DefaultOf(p))
  }

  predicate OverrideFits(y: Option<Yaml>) { Silent(y) || y.value.List? }

  predicate ScanFits(raw: Yaml) {
    && OverrideFits(Lookup(raw, [Scan, Priority, Cover])) && OverrideFits(Lookup(raw, [Scan, Priority, Screenshot]))
    && OverrideFits(Lookup(raw, [Scan, Priority, Manual]))
    && ListOr(Lookup(raw, [Scan, Media]))
    && TextOr(Lookup(raw, [Scan, Gamelist, Media, Thumbnail])) && TextOr(Lookup(raw, [Scan, Gamelist, Media, Image]))
  }

  /** Every value the program reads is of its kind, and no retired folder setting is left. */
  predicate Fits(raw: Yaml) {
    && Silent(Lookup(raw, [Filesystem, RomsFolder])) && Silent(Lookup(raw, [Filesystem, FirmwareFolder]))
    && (forall x: Exclusion :: TextsOr(Lookup(raw, ExclusionPath(x))))
    && PlainFits(raw)
    && ScanFits(raw)
    && NamesOr(Lookup(raw, [System, Platforms])) && NamesOr(Lookup(raw, [System, Versions]))
    && NamesOr(Lookup(raw, [Emulatorjs, DefaultCores]))
    && LoadStructure(Lookup(raw, [Filesystem, StructureKey])).Some?
    && LoadControls(Lookup(raw, [Emulatorjs, Controls])).Some?
    && FlagOr(Lookup(raw, [Streaming, Enabled])) && ListOr(Lookup(raw, [Streaming, Containers]))
  }

  /** What no file can leave out: system folders, media folders beside multi-file games,
      working extensions and bookkeeping files. */
  function Always(x: Exclusion): set<string> {
    var folders := {"@eaDir", "assets", "__MACOSX", "#recycle", "$RECYCLE.BIN", ".Trash-*", ".stfolder", ".Spotlight-V100",
                    ".fseventsd", ".DocumentRevisions-V100", "System Volume Information"};
    if x.ExPlatforms? then folders
    else if x.ExMultiFiles? then
      folders + {"images", "covers", "backcovers", "3dboxes", "bezels", "fanart", "manuals", "marquees", "miximages",
                 "miximages_v2", "physicalmedia", "screenshots", "thumbnails", "titlescreens", "videos"}
    else if x.ExSingleExt? || x.ExPartsExt? then {"db", "tmp", "bak", "lock", "log", "cache", "crdownload", "assembling"}
    else {".DS_Store", ".localized", ".Trashes", ".stfolder", "@SynoResource", "*:Zone.Identifier", "gamelist.xml",
          "metadata.pegasus.txt"}
  }

  /** The exclusions the file adds; extensions in lower case. */
  function Listed(x: Exclusion, y: Option<Yaml>): set<string> {
    if y.None? || !y.value.List? then {}
    else set t | t in y.value.items && t.Str? :: if x.ExSingleExt? || x.ExPartsExt? then T.Lower(t.text) else t.text
  }

  lemma DefaultIsAlways(x: Exclusion)
    ensures Defaults(x) == Always(x)
  {
    assert T.Lower("db") == "db" && T.Lower("tmp") == "tmp" && T.Lower("bak") == "bak" && T.Lower("lock") == "lock";
    assert T.Lower("log") == "log" && T.Lower("cache") == "cache" && T.Lower("crdownload") == "crdownload";
    assert T.Lower("assembling") == "assembling";
  }

  lemma ListedIsFolded(x: Exclusion, items: seq<Yaml>)
    requires forall i | 0 <= i < |items| :: items[i].Str?
    ensures Folded(x, Members(Texts(items))) == Listed(x, Some(List(items)))
  {
    var texts, listed := Texts(items), Listed(x, Some(List(items)));
    forall i | 0 <= i < |items| ensures texts[i] in Members(texts) && items[i] in items { assert texts[i] in texts; }
    forall v | v in Folded(x, Members(texts)) ensures v in listed {
      if FoldsCase(x) {
        var t :| t in Members(texts) && T.Lower(t) == v;
        var i :| 0 <= i < |texts| && texts[i] == t;
        assert items[i] in items;
      } else {
        var i :| 0 <= i < |texts| && texts[i] == v;
        assert items[i] in items;
      }
    }
    forall v | v in listed ensures v in Folded(x, Members(texts)) {
      var t :| t in items && v == if x.ExSingleExt? || x.ExPartsExt? then T.Lower(t.text) else t.text;
      var i :| 0 <= i < |items| && items[i] == t;
      assert texts[i] in Members(texts);
    }
  }

  /** A list of exclusions holds what is always excluded and what its path lists, nothing else. */
  lemma ExclusionRead(raw: Yaml, x: Exclusion)
    ensures LoadExclusion(raw, x).Some? <==> TextsOr(Lookup(raw, ExclusionPath(x)))
    ensures LoadExclusion(raw, x).Some? ==>
              Members(LoadExclusion(raw, x).value) == Always(x) + Listed(x, Lookup(raw, ExclusionPath(x)))
  {
    ListedAtItsPath(raw, x);
    hide FindExclusion, Lookup, Sorted, Defaults, Always, Folded, Listed, ExclusionPath;
    DefaultIsAlways(x);
    var y := FindExclusion(raw, x);
    assert AllText(y.GetOr(List([]))) <==> TextsOr(y);
    if TextsOr(y) {
      ListedIsFolded(x, y.GetOr(List([])).items);
      NothingListed(x);
      assert y.Some? ==> y == Some(List(y.value.items));
    }
  }

  lemma NothingListed(x: Exclusion)
    ensures Listed(x, None) == Listed(x, Some(List([]))) == {}
  {
  }

  lemma SettingRead(raw: Yaml, p: Plain)
    ensures Accepts(p, Find(raw, p).GetOr(DefaultOf(p))) <==> SettingFits(p, Lookup(raw, PathOf(p)))
  {
    FoundAtItsPath(raw, p);
    hide Find, Lookup, PathOf;
  }

  lemma PlainListed(p: Plain)
    ensures p in PLAINS
  {
    match p
    case _ =>
  }

  lemma PlainRead(raw: Yaml)
    ensures LoadPlain(raw).Some? <==> PlainFits(raw)
    ensures LoadPlain(raw).Some? ==> PlainAsRead(raw, LoadPlain(raw).value)
  {
    hide Find, Lookup, PathOf, Accepts, SettingFits, DefaultOf, PLAINS;
    forall p: Plain
      ensures p in PLAINS
      ensures Find(raw, p) == Lookup(raw, PathOf(p))
      ensures Accepts(p, Find(raw, p).GetOr(DefaultOf(p))) <==> SettingFits(p, Lookup(raw, PathOf(p)))
    {
      PlainListed(p);
      FoundAtItsPath(raw, p);
      SettingRead(raw, p);
    }
    var plain := map p | p in PLAINS :: Find(raw, p).GetOr(DefaultOf(p));
    if p :| !SettingFits(p, Lookup(raw, PathOf(p))) { assert p in plain && !Accepts(p, plain[p]); }
  }

  lemma NamesRead(y: Option<Yaml>)
    ensures LoadNames(y).Some? <==> NamesOr(y)
  {
    hide Lowered, KeyFor;
    if y.Some? && y.value.Dict? {
      assert NamedKeys(y.value.entries) <==> forall k | k in y.value.entries :: !k.Sec?;
    }
  }

  lemma ScanRead(raw: Yaml)
    ensures LoadScan(raw).Some? <==> ScanFits(raw)
    ensures LoadScan(raw).Some? ==>
              var s := LoadScan(raw).value;
              && s.cover == OverrideRead(Lookup(raw, [Scan, Priority, Cover]))
              && s.screenshot == OverrideRead(Lookup(raw, [Scan, Priority, Screenshot]))
              && s.manual == OverrideRead(Lookup(raw, [Scan, Priority, Manual]))
              && s.regionMode == RegionModeRead(Lookup(raw, [Scan, Priority, RegionMode]))
              && s.media == MediaRead(Lookup(raw, [Scan, Media]))
              && s.thumbnail == PictureRead(Lookup(raw, [Scan, Gamelist, Media, Thumbnail]),
                                            {"box2d", "box3d", "miximage", "miximage_v2", "physical"}, "box2d")
              && s.image == PictureRead(Lookup(raw, [Scan, Gamelist, Media, Image]),
                                        {"title_screen", "miximage", "miximage_v2", "box2d", "screenshot"}, "screenshot")
  {
    Lookups(raw, Scan, Priority, Cover, Cover);
    Lookups(raw, Scan, Priority, Screenshot, Cover);
    Lookups(raw, Scan, Priority, Manual, Cover);
    Lookups(raw, Scan, Priority, RegionMode, Cover);
    Lookups(raw, Scan, Gamelist, Media, Thumbnail);
    Lookups(raw, Scan, Gamelist, Media, Image);
    Lookups(raw, Scan, Media, Media, Media);
    var cover, screenshot, manual := Lookup(raw, [Scan, Priority, Cover]), Lookup(raw, [Scan, Priority, Screenshot]),
                                     Lookup(raw, [Scan, Priority, Manual]);
    OverrideMeans(cover);
    OverrideMeans(screenshot);
    OverrideMeans(manual);
    RegionModeMeans(Lookup(raw, [Scan, Priority, RegionMode]));
    MediaMeans(Lookup(raw, [Scan, Media]));
    PictureMeans(Lookup(raw, [Scan, Gamelist, Media, Thumbnail]), THUMBNAILS, "box2d");
    PictureMeans(Lookup(raw, [Scan, Gamelist, Media, Image]), IMAGES, "screenshot");
    hide Lookup, Child, LoadMedia, LoadOverride, LoadChoice, LoadRegionMode, OverrideOk, OverrideFits, OverrideRead,
         RegionModeRead, MediaRead, PictureRead, ListOr, TextOr;
  }

  lemma OverrideMeans(y: Option<Yaml>)
    ensures OverrideOk(y) <==> OverrideFits(y)
    ensures OverrideFits(y) ==> LoadOverride(y) == OverrideRead(y)
  {
  }

  lemma RegionModeMeans(y: Option<Yaml>)
    ensures LoadRegionMode(y) == RegionModeRead(y)
  {
  }

  lemma MediaMeans(y: Option<Yaml>)
    ensures LoadMedia(y).Some? <==> ListOr(y)
    ensures ListOr(y) ==> LoadMedia(y).value == MediaRead(y)
  {
    hide Known;
  }

  lemma PictureMeans(y: Option<Yaml>, valid: set<string>, fallback: string)
    ensures LoadChoice(y, valid, fallback).Some? <==> TextOr(y)
    ensures TextOr(y) ==> LoadChoice(y, valid, fallback).value == PictureRead(y, valid, fallback)
  {
  }

  function OverrideRead(y: Option<Yaml>): Option<Yaml> { if Silent(y) then None else y }

  function RegionModeRead(y: Option<Yaml>): string {
    if y == Some(Str("prefer_config")) then "prefer_config" else "prefer_rom_tags"
  }

  function MediaRead(y: Option<Yaml>): seq<string> {
    if y.Some? && y.value.List? then Known(y.value.items) else ["box2d", "screenshot", "manual"]
  }

  function PictureRead(y: Option<Yaml>, valid: set<string>, fallback: string): string {
    if y.Some? && y.value.Str? && y.value.text in valid then y.value.text else fallback
  }

  // ---- The file as a whole ----

  /** A file is read exactly when everything in it fits; otherwise the program stops. */
  lemma LoadsExactly(raw: Yaml)
    ensures Load(raw).Some? <==> Fits(raw)
  {
    PartsRead(raw);
    LoadNeedsAll(raw);
    ScanRead(raw);
    PlainRead(raw);
    NamesRead(Lookup(raw, [System, Platforms]));
    NamesRead(Lookup(raw, [System, Versions]));
    NamesRead(Lookup(raw, [Emulatorjs, DefaultCores]));
    hide Load, Lookup, LoadScan, LoadPlain, LoadExclusions, LoadExclusion, LoadNames, LoadStructure, LoadControls,
         PlainFits, ScanFits, NamesOr, TextsOr, ExclusionPath;
    forall x: Exclusion ensures LoadExclusion(raw, x).Some? <==> TextsOr(Lookup(raw, ExclusionPath(x))) { ExclusionRead(raw, x); }
    ExclusionsRead(raw);
  }

  lemma ExclusionsRead(raw: Yaml)
    ensures LoadExclusions(raw).Some? <==> forall x: Exclusion :: LoadExclusion(raw, x).Some?
    ensures LoadExclusions(raw).Some? ==>
              forall x: Exclusion :: LoadExclusion(raw, x) == Some(LoadExclusions(raw).value.At(x))
  {
    hide LoadExclusion;
    if LoadExclusions(raw).Some? {
      forall x: Exclusion ensures LoadExclusion(raw, x) == Some(LoadExclusions(raw).value.At(x)) {
        match x
        case _ =>
      }
    }
  }

  /** The sections of the file that are read on their own. */
  lemma PartsRead(raw: Yaml)
    ensures var r := Some(raw);
            && Child(Child(r, System), Platforms) == Lookup(raw, [System, Platforms])
            && Child(Child(r, System), Versions) == Lookup(raw, [System, Versions])
            && Child(Child(r, Emulatorjs), DefaultCores) == Lookup(raw, [Emulatorjs, DefaultCores])
            && Child(Child(r, Emulatorjs), Controls) == Lookup(raw, [Emulatorjs, Controls])
            && Child(Child(r, Filesystem), StructureKey) == Lookup(raw, [Filesystem, StructureKey])
            && Child(Child(r, Filesystem), RomsFolder) == Lookup(raw, [Filesystem, RomsFolder])
            && Child(Child(r, Filesystem), FirmwareFolder) == Lookup(raw, [Filesystem, FirmwareFolder])
            && Child(Child(r, Streaming), Enabled) == Lookup(raw, [Streaming, Enabled])
            && Child(Child(r, Streaming), Containers) == Lookup(raw, [Streaming, Containers])
  {
    Lookups(raw, System, Platforms, Scan, Scan);
    Lookups(raw, System, Versions, Scan, Scan);
    Lookups(raw, Emulatorjs, DefaultCores, Scan, Scan);
    Lookups(raw, Emulatorjs, Controls, Scan, Scan);
    Lookups(raw, Filesystem, StructureKey, Scan, Scan);
    Lookups(raw, Filesystem, RomsFolder, Scan, Scan);
    Lookups(raw, Filesystem, FirmwareFolder, Scan, Scan);
    Lookups(raw, Streaming, Enabled, Scan, Scan);
    Lookups(raw, Streaming, Containers, Scan, Scan);
    hide Lookup, Child;
  }

  lemma LoadNeedsAll(raw: Yaml)
    ensures Load(raw).Some? <==>
              && Silent(Lookup(raw, [Filesystem, RomsFolder])) && Silent(Lookup(raw, [Filesystem, FirmwareFolder]))
              && LoadExclusions(raw).Some? && LoadPlain(raw).Some? && LoadScan(raw).Some?
              && LoadNames(Lookup(raw, [System, Platforms])).Some? && LoadNames(Lookup(raw, [System, Versions])).Some?
              && LoadNames(Lookup(raw, [Emulatorjs, DefaultCores])).Some?
              && LoadStructure(Lookup(raw, [Filesystem, StructureKey])).Some?
              && LoadControls(Lookup(raw, [Emulatorjs, Controls])).Some?
              && FlagOr(Lookup(raw, [Streaming, Enabled])) && ListOr(Lookup(raw, [Streaming, Containers]))
  {
    PartsRead(raw);
    hide Lookup, Child, LoadExclusions, LoadPlain, LoadScan, LoadNames, LoadStructure, LoadControls;
  }

  /** What is read is what stands at each setting's path; absent settings take their defaults. */
  lemma LoadedMeans(raw: Yaml)
    requires Load(raw).Some?
    ensures var c := Load(raw).value;
            && PlainAsRead(raw, c.plain)
            && (forall x: Exclusion :: Members(c.exclusions.At(x)) == Always(x) + Listed(x, Lookup(raw, ExclusionPath(x))))
            && c.cover == OverrideRead(Lookup(raw, [Scan, Priority, Cover]))
            && c.screenshot == OverrideRead(Lookup(raw, [Scan, Priority, Screenshot]))
            && c.manual == OverrideRead(Lookup(raw, [Scan, Priority, Manual]))
            && c.regionMode == RegionModeRead(Lookup(raw, [Scan, Priority, RegionMode]))
            && c.media == MediaRead(Lookup(raw, [Scan, Media]))
            && c.thumbnail == PictureRead(Lookup(raw, [Scan, Gamelist, Media, Thumbnail]),
                                          {"box2d", "box3d", "miximage", "miximage_v2", "physical"}, "box2d")
            && c.image == PictureRead(Lookup(raw, [Scan, Gamelist, Media, Image]),
                                      {"title_screen", "miximage", "miximage_v2", "box2d", "screenshot"}, "screenshot")
            && c.streamingEnabled == (Lookup(raw, [Streaming, Enabled]) == Some(Bool(true)))
            && Lookup(raw, [Streaming, Containers]).GetOr(List([])) == List(c.containers)
  {
    PartsRead(raw);
    PlainRead(raw);
    ScanRead(raw);
    ExclusionsRead(raw);
    hide Lookup, Child, LoadExclusions, LoadExclusion, LoadPlain, LoadScan, LoadNames, LoadStructure, LoadControls, PlainAsRead,
         OverrideRead, RegionModeRead, MediaRead, PictureRead, Always, Listed, ExclusionPath, Retired;
    forall x: Exclusion
      ensures LoadExclusion(raw, x).Some? ==>
                Members(LoadExclusion(raw, x).value) == Always(x) + Listed(x, Lookup(raw, ExclusionPath(x)))
    {
      ExclusionRead(raw, x);
    }
  }

  // ---- What is written ----

  /** The streaming section is written exactly when it says something. */
  lemma StreamingWrittenExactly(c: Config)
    ensures Lookup(Save(c), [Streaming]).Some? <==> c.streamingEnabled || c.containers != []
    ensures Lookup(Save(c), [Streaming, Enabled]).Some? ==> Lookup(Save(c), [Streaming, Enabled]) == Some(Bool(c.streamingEnabled))
    ensures Lookup(Save(c), [Streaming, Containers]).Some? ==> Lookup(Save(c), [Streaming, Containers]) == Some(List(c.containers))
  {
    Lookups(Save(c), Streaming, Enabled, Scan, Scan);
    Lookups(Save(c), Streaming, Containers, Scan, Scan);
    hide Lookup, SaveFilesystem, SaveSystem, SaveEmulatorjs, SaveScan, SaveExclude;
  }

  // ---- A file that says nothing ----

  lemma NothingFound(path: seq<Section>)
    requires path != []
    ensures Lookup(Dict(map[]), path) == None
  {
  }

  lemma EmptyFileFits()
    ensures Fits(Dict(map[]))
  {
    hide Lookup, LoadStructure, LoadControls, SettingFits, ExclusionPath, PathOf;
    forall path: seq<Section> | path != [] ensures Lookup(Dict(map[]), path) == None { NothingFound(path); }
    forall p: Plain ensures SettingFits(p, Lookup(Dict(map[]), PathOf(p))) { UnsetFits(p); }
    forall x: Exclusion ensures ExclusionPath(x) != [] { ListsHaveAPath(x); }
    NoStructureLoads();
  }

  lemma UnsetFits(p: Plain)
    ensures PathOf(p) != [] && SettingFits(p, None)
  {
  }

  lemma ListsHaveAPath(x: Exclusion)
    ensures ExclusionPath(x) != []
  {
  }

  lemma NoStructureLoads()
    ensures LoadStructure(None).Some? && LoadControls(None).Some?
  {
    var none: map<string, T.Value> := map[];
    assert LowerAll(none.Keys) == {};
    assert Lowered(none) == none;
    assert KeyTexts(map[]) == {};
  }

  /** Nothing is skipped, exported or enabled, and the sources are asked in this order. */
  predicate IsDefault(p: Plain, y: Yaml) {
    match p
    case PCacheLimit => y == Null
    case PIceServers => y == List([])
    case PSettings => y == Dict(map[])
    case PMetadata => InOrder(y, ["igdb", "moby", "ss", "ra", "launchbox", "gamelist", "hasheous", "tgdb", "flashpoint",
                                  "steam", "hltb", "demozoo", "pouet", "csdb"])
    case PArtwork => InOrder(y, ["sgdb", "igdb", "moby", "ss", "libretro", "ra", "launchbox", "gamelist", "hasheous", "tgdb",
                                 "flashpoint", "steam", "hltb", "demozoo", "pouet", "csdb"])
    case PRegion => InOrder(y, ["us", "wor", "ss", "eu", "jp"])
    case PLanguage => InOrder(y, ["en"])
    case _ => y == Bool(false)
  }

  predicate InOrder(y: Yaml, names: seq<string>) {
    y.List? && |y.items| == |names| && forall i | 0 <= i < |names| :: y.items[i] == Str(names[i])
  }

  lemma DefaultIsDefault(p: Plain)
    ensures IsDefault(p, DefaultOf(p))
  {
  }

  /** An empty file is accepted and stands for the defaults. */
  lemma EmptyFileMeans()
    ensures Load(Dict(map[])).Some?
    ensures var c := Load(Dict(map[])).value;
            && (forall p: Plain :: p in c.plain && IsDefault(p, c.plain[p]))
            && c.cover == c.screenshot == c.manual == None && c.regionMode == "prefer_rom_tags"
            && c.media == ["box2d", "screenshot", "manual"] && c.thumbnail == "box2d" && c.image == "screenshot"
            && !c.streamingEnabled && c.containers == []
  {
    hide Load, Fits, Lookup, PathOf, Always, Listed, ExclusionPath, DefaultOf, Known, IsDefault;
    var raw := Dict(map[]);
    EmptyFileFits();
    LoadsExactly(raw);
    LoadedMeans(raw);
    forall p: Plain ensures PathOf(p) != [] && IsDefault(p, DefaultOf(p)) { UnsetFits(p); DefaultIsDefault(p); }
    forall path: seq<Section> | path != [] ensures Lookup(raw, path) == None { NothingFound(path); }
  }

  // ---- The setters ----

  /** The settings held in memory after a request. */
  function Held(c: Config, ch: Change): Config { Changed(c, ch).GetOr(Unwritten(c, ch)) }

  /** Adding a name never replaces one: what was bound stays, the folder is bound afterwards,
      and as requested if it was not. */
  lemma BindingReplacesNothing(c: Config, fs: string, slug: string)
    ensures var c' := Held(c, AddBinding(fs, slug));
            c' == c.(bindings := c'.bindings) && OneMore(c.bindings, c'.bindings, T.Lower(fs), slug)
  {
    hide T.Lower;
  }

  lemma VersionReplacesNothing(c: Config, fs: string, slug: string)
    ensures var c' := Held(c, AddVersion(fs, slug));
            c' == c.(versions := c'.versions) && OneMore(c.versions, c'.versions, T.Lower(fs), slug)
  {
    hide T.Lower;
  }

  predicate OneMore(m: map<string, string>, m': map<string, string>, name: string, slug: string) {
    && m'.Keys == m.Keys + {name} && (forall k | k in m :: m'[k] == m[k]) && (name !in m ==> m'[name] == slug)
  }

  predicate Adds(ch: Change) { ch.AddBinding? || ch.AddVersion? || ch.AddExclusion? }

  /** A repeated addition is not written again. */
  lemma AddedOnce(c: Config, ch: Change)
    requires Adds(ch)
    ensures Changed(Held(c, ch), ch).None? && Held(Held(c, ch), ch) == Held(c, ch)
  {
    hide T.Lower;
  }

  /** An exclusion is added to its own list, once. */
  lemma ExcludedOnce(c: Config, x: Exclusion, value: string)
    requires CP.NoRepeats(c.exclusions.At(x))
    ensures var list := Held(c, AddExclusion(x, value)).exclusions;
            && Members(list.At(x)) == Members(c.exclusions.At(x)) + {value} && CP.NoRepeats(list.At(x))
            && forall y | y != x :: list.At(y) == c.exclusions.At(y)
  {
    var list := c.exclusions.At(x);
    HeldExclusions(c, x, value);
    hide Held;
    if value in list {
      assert Members(list) == Members(list) + {value};
    } else {
      CP.MembersSnoc(list, value);
    }
  }

  lemma HeldExclusions(c: Config, x: Exclusion, value: string)
    ensures var list, lists := c.exclusions.At(x), Held(c, AddExclusion(x, value)).exclusions;
            && lists.At(x) == (if value in list then list else list + [value])
            && forall y | y != x :: lists.At(y) == c.exclusions.At(y)
  {
  }

  /** Removing a name is always written: the folder is bound no more, and nothing else changes. */
  lemma NameIsRemoved(c: Config, fs: string)
    ensures var r := Changed(c, RemoveBinding(fs));
            r.Some? && r.value == c.(bindings := r.value.bindings) && OneLess(c.bindings, r.value.bindings, T.Lower(fs))
    ensures var r := Changed(c, RemoveVersion(fs));
            r.Some? && r.value == c.(versions := r.value.versions) && OneLess(c.versions, r.value.versions, T.Lower(fs))
  {
    hide T.Lower;
  }

  predicate OneLess(m: map<string, string>, m': map<string, string>, name: string) {
    m'.Keys == m.Keys - {name} && forall k | k in m' :: m'[k] == m[k]
  }

  /** Removing an exclusion is always written: one entry goes from its list, and no other list changes. */
  lemma ExclusionIsRemoved(c: Config, x: Exclusion, value: string)
    ensures Changed(c, RemoveExclusion(x, value)).Some?
    ensures var c' := Changed(c, RemoveExclusion(x, value)).value;
            && c' == c.(exclusions := c'.exclusions) && (forall y | y != x :: c'.exclusions.At(y) == c.exclusions.At(y))
            && multiset(c'.exclusions.At(x)) == multiset(c.exclusions.At(x)) - multiset{value}
  {
    hide RemoveFirst;
    var c' := Changed(c, RemoveExclusion(x, value)).value;
    RemovedFromItsList(c.exclusions, x, RemoveFirst(c.exclusions.At(x), value));
    assert c'.exclusions == c.exclusions.With(x, RemoveFirst(c.exclusions.At(x), value));
    OneIsRemoved(c.exclusions.At(x), value);
    hide Changed;
  }

  lemma RemovedFromItsList(lists: Six<seq<string>>, x: Exclusion, list: seq<string>)
    ensures lists.With(x, list).At(x) == list
    ensures forall y | y != x :: lists.With(x, list).At(y) == lists.At(y)
  {
  }

  lemma {:induction false} OneIsRemoved(list: seq<string>, v: string)
    ensures multiset(RemoveFirst(list, v)) == multiset(list) - multiset{v}
  {
    if list != [] {
      assert list == [list[0]] + list[1..];
      OneIsRemoved(list[1..], v);
    }
  }

  /** A scan update is written exactly when both its pictures are media the program knows. */
  lemma UnknownPictureIsRefused(c: Config, u: ScanUpdate)
    ensures Changed(c, UpdateScan(u)).Some? <==> u.thumbnail in MEDIA && u.image in MEDIA
  {
    assert MEDIA == MEDIA_TYPES;
    hide MEDIA, MEDIA_TYPES, ScanUpdated;
  }

  const MEDIA: set<string> :=
    {"bezel", "box2d", "box2d_back", "box2d_side", "box3d", "miximage", "miximage_v2", "physical",
     "screenshot", "title_screen", "marquee", "logo", "fanart", "video", "video_normalized", "manual"}

  /** An update that leaves an override out clears it. */
  predicate Asked(held: Option<Yaml>, asked: Option<seq<string>>) {
    match asked
    case None => held == None
    case Some(sources) => held == Some(Strings(sources))
  }

  /** The priorities and overrides an update asks for. */
  predicate Prioritized(c': Config, u: ScanUpdate) {
    && {PMetadata, PArtwork, PRegion, PLanguage} <= c'.plain.Keys
    && c'.plain[PMetadata] == Strings(u.metadata) && c'.plain[PArtwork] == Strings(u.artwork)
    && c'.plain[PRegion] == Strings(u.region) && c'.plain[PLanguage] == Strings(u.language)
    && Asked(c'.cover, u.cover) && Asked(c'.screenshot, u.screenshot) && Asked(c'.manual, u.manual)
  }

  /** Everything a scan update does not touch. */
  predicate SameOutsideScan(c: Config, c': Config) {
    && c'.exclusions == c.exclusions && c'.bindings == c.bindings && c'.versions == c.versions && c'.cores == c.cores
    && c'.structure == c.structure && c'.controls == c.controls && c'.regionMode == c.regionMode
    && c'.streamingEnabled == c.streamingEnabled && c'.containers == c.containers
    && (forall p | p in c.plain && !CP.ScanField(p) :: p in c'.plain && c'.plain[p] == c.plain[p])
  }

  /** After a restart a written scan update is found setting by setting, less the media the
      program does not know; a picture the tags do not allow is replaced. */
  lemma ScanUpdateArrives(c: Config, u: ScanUpdate)
    requires CP.AtRest(c)
    ensures var r := Load(Save(ScanUpdated(c, u)));
            && r.Some? && Prioritized(r.value, u) && SameOutsideScan(c, r.value)
            && {PGamelistExport, PPegasusExport} <= r.value.plain.Keys
            && r.value.plain[PGamelistExport] == Bool(u.gamelistExport)
            && r.value.plain[PPegasusExport] == Bool(u.pegasusExport)
            && Members(r.value.media) == Members(u.media) * MEDIA_TYPES
            && r.value.thumbnail == PictureRead(Some(Str(u.thumbnail)), THUMBNAILS, "box2d")
            && r.value.image == PictureRead(Some(Str(u.image)), IMAGES, "screenshot")
  {
    hide Save, Load, CP.AtRest, CP.KnownTexts, MEDIA_TYPES, THUMBNAILS, IMAGES, ScanUpdated, Prioritized, SameOutsideScan;
    CP.ScanReload(c, u);
    KnownMembers(u.media);
    UpdatedAsAsked(c, u);
    OtherPictures(c, ScanUpdated(c, u), u, CP.KnownTexts(u.media), if u.thumbnail in THUMBNAILS then u.thumbnail else "box2d",
                  if u.image in IMAGES then u.image else "screenshot");
  }

  lemma OtherPictures(c: Config, d: Config, u: ScanUpdate, media: seq<string>, thumbnail: string, image: string)
    requires Prioritized(d, u) && SameOutsideScan(c, d)
    ensures var e := d.(media := media, thumbnail := thumbnail, image := image);
            && Prioritized(e, u) && SameOutsideScan(c, e)
            && e.plain == d.plain && e.media == media && e.thumbnail == thumbnail && e.image == image
  {
    hide Strings, Asked, CP.ScanField;
  }

  lemma UpdatedAsAsked(c: Config, u: ScanUpdate)
    ensures var c' := ScanUpdated(c, u);
            && Prioritized(c', u) && SameOutsideScan(c, c')
            && {PGamelistExport, PPegasusExport} <= c'.plain.Keys
            && c'.plain[PGamelistExport] == Bool(u.gamelistExport) && c'.plain[PPegasusExport] == Bool(u.pegasusExport)
  {
    hide Strings, Asked;
    var c' := ScanUpdated(c, u);
    OverridesAreAsked(u);
    assert forall p | p in c.plain && !CP.ScanField(p) :: p in c'.plain && c'.plain[p] == c.plain[p];
    hide CP.ScanField, ListOf;
  }

  lemma OverridesAreAsked(u: ScanUpdate)
    ensures Asked(ListOf(u.cover), u.cover) && Asked(ListOf(u.screenshot), u.screenshot) && Asked(ListOf(u.manual), u.manual)
  {
    hide Strings;
  }

  lemma {:induction false} KnownMembers(texts: seq<string>)
    ensures Members(CP.KnownTexts(texts)) == Members(texts) * MEDIA_TYPES
  {
    hide MEDIA_TYPES;
    if texts != [] {
      KnownMembers(texts[1..]);
      assert texts == [texts[0]] + texts[1..];
      var head := if IsMedia(texts[0]) then [texts[0]] else [];
      assert Members(head + CP.KnownTexts(texts[1..])) == Members(head) + Members(CP.KnownTexts(texts[1..]));
      assert Members(texts) == {texts[0]} + Members(texts[1..]);
    }
  }

  /** A scan update refused for a picture has already replaced the rest of the section in
      memory: a bad thumbnail leaves both pictures, a bad image leaves the image, and the
      Pegasus export is never reached. */
  lemma RefusedUpdateStays(c: Config, u: ScanUpdate)
    requires Changed(c, UpdateScan(u)).None?
    ensures var c' := Held(c, UpdateScan(u));
            && Prioritized(c', u) && SameOutsideScan(c, c') && c'.media == u.media
            && PGamelistExport in c'.plain && c'.plain[PGamelistExport] == Bool(u.gamelistExport)
            && (PPegasusExport in c.plain ==> PPegasusExport in c'.plain && c'.plain[PPegasusExport] == c.plain[PPegasusExport])
            && c'.image == c.image
            && c'.thumbnail == if IsMedia(u.thumbnail) then u.thumbnail else c.thumbnail
  {
    hide Strings, Asked;
    var c' := Held(c, UpdateScan(u));
    OverridesAreAsked(u);
    assert forall p | p in c.plain && !CP.ScanField(p) :: p in c'.plain && c'.plain[p] == c.plain[p];
    hide CP.ScanField, ListOf;
  }
}
