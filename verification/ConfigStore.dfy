/** The configuration file: reading it into settings, writing the settings back, and the
    setters that do the one after the other. */
module ConfigStore {
  import opened Common
  import T = Templates

  // ---- The file as structured values ----

  /** The section names the program itself reads. */
  datatype Section =
    | Exclude | Platforms | Roms | SingleFile | MultiFile | Parts | Extensions | Names
    | Filesystem | StructureKey | SkipHash | SkipTitleId | EmbedTitleIds | RomsFolder | FirmwareFolder
    | System | Versions
    | Emulatorjs | Debug | CacheLimit | DisableAutoUnload | DisableBatchBootup | AutoSaveSync | Netplay | Enabled
    | IceServers | DefaultCores | Settings | Controls
    | Scan | Priority | Metadata | Artwork | Cover | Screenshot | Manual | Region | RegionMode | Language | Media
    | Gamelist | Export | Thumbnail | Image | Pegasus | Streaming | Containers

  /** Keys the user chooses are text or numbers, and players are numbers. */
  datatype Key = Sec(section: Section) | Text(text: string) | Number(n: int)

  datatype Yaml = Null | Bool(flag: bool) | Int(n: int) | Str(text: string) | List(items: seq<Yaml>) | Dict(entries: map<Key, Yaml>)

  /** One step of a dotted lookup: anything that is not a dictionary has no children. */
  function Child(y: Option<Yaml>, s: Section): Option<Yaml> {
    if y.Some? && y.value.Dict? && Sec(s) in y.value.entries then Some(y.value.entries[Sec(s)]) else None
  }

  // ---- Sorted lists ----

  predicate Less(a: string, b: string) {
    b != "" && (a == "" || a[0] < b[0] || (a[0] == b[0] && Less(a[1..], b[1..])))
  }

  predicate IsLeast(m: string, s: set<string>) { m in s && forall x | x in s && x != m :: Less(m, x) }

  lemma LessTotal(a: string, b: string)
    ensures a == b || Less(a, b) || Less(b, a)
  {
    if a != "" && b != "" && a[0] == b[0] {
      LessTotal(a[1..], b[1..]);
      assert a == [a[0]] + a[1..] && b == [b[0]] + b[1..];
    }
  }

  lemma {:induction false} LessIsStrict(a: string, b: string, c: string)
    requires Less(a, b) && Less(b, c)
    ensures Less(a, c) && a != c
  {
    if a != "" && a[0] == b[0] == c[0] { LessIsStrict(a[1..], b[1..], c[1..]); }
  }

  lemma LeastExists(s: set<string>)
    requires s != {}
    ensures exists m :: IsLeast(m, s)
  {
    var y :| y in s;
    if s == {y} {
      assert IsLeast(y, s);
    } else {
      LeastExists(s - {y});
      var r :| IsLeast(r, s - {y});
      LessTotal(r, y);
      forall x | x in s && x != y && x != r && Less(y, r) ensures Less(y, x) { LessIsStrict(y, r, x); }
      assert IsLeast(if Less(r, y) then r else y, s);
    }
  }

  lemma LeastUnique(s: set<string>)
    ensures forall m, n | IsLeast(m, s) && IsLeast(n, s) :: m == n
  {
    forall m, n | IsLeast(m, s) && IsLeast(n, s) ensures m == n {
      if m != n { LessIsStrict(m, n, m); }
    }
  }

  function LeastOf(s: set<string>): (m: string)
    requires s != {}
    ensures IsLeast(m, s)
  {
    LeastExists(s);
    LeastUnique(s);
    var m :| IsLeast(m, s);
    m
  }

  function Sorted(s: set<string>): (r: seq<string>)
    ensures Members(r) == s
    decreases |s|
  {
    if s == {} then []
    else
      var m := LeastOf(s);
      var rest := Sorted(s - {m});
      assert Members([m] + rest) == {m} + Members(rest);
      [m] + rest
  }

  // ---- Settings ----

  datatype Exclusion = ExPlatforms | ExSingleExt | ExSingleFiles | ExMultiFiles | ExPartsExt | ExPartsFiles

  datatype Six<T> = Six(platforms: T, singleExt: T, singleFiles: T, multiFiles: T, partsExt: T, partsFiles: T)
  {
    function At(x: Exclusion): T {
      match x
      case ExPlatforms => platforms
      case ExSingleExt => singleExt
      case ExSingleFiles => singleFiles
      case ExMultiFiles => multiFiles
      case ExPartsExt => partsExt
      case ExPartsFiles => partsFiles
    }

    function With(x: Exclusion, v: T): Six<T> {
      match x
      case ExPlatforms => this.(platforms := v)
      case ExSingleExt => this.(singleExt := v)
      case ExSingleFiles => this.(singleFiles := v)
      case ExMultiFiles => this.(multiFiles := v)
      case ExPartsExt => this.(partsExt := v)
      case ExPartsFiles => this.(partsFiles := v)
    }
  }

  const DEFAULT_EXTENSIONS: set<string> := {"db", "tmp", "bak", "lock", "log", "cache", "crdownload", "assembling"}
  const DEFAULT_FILES: set<string> :=
    {".DS_Store", ".localized", ".Trashes", ".stfolder", "@SynoResource", "*:Zone.Identifier", "gamelist.xml",
     "metadata.pegasus.txt"}
  const DEFAULT_PLATFORM_DIRS: set<string> :=
    {"@eaDir", "assets", "__MACOSX", "#recycle", "$RECYCLE.BIN", ".Trash-*", ".stfolder", ".Spotlight-V100",
     ".fseventsd", ".DocumentRevisions-V100", "System Volume Information"}
  const MEDIA_DIRS: set<string> :=
    {"images", "covers", "backcovers", "3dboxes", "bezels", "fanart", "manuals", "marquees", "miximages",
     "miximages_v2", "physicalmedia", "screenshots", "thumbnails", "titlescreens", "videos"}

  /** What is always excluded, whatever the file says. */
  function Defaults(x: Exclusion): set<string> {
    match x
    case ExPlatforms => DEFAULT_PLATFORM_DIRS
    case ExSingleExt => LowerAll(DEFAULT_EXTENSIONS)
    case ExSingleFiles => DEFAULT_FILES
    case ExMultiFiles => DEFAULT_PLATFORM_DIRS + MEDIA_DIRS
    case ExPartsExt => LowerAll(DEFAULT_EXTENSIONS)
    case ExPartsFiles => DEFAULT_FILES
  }

  predicate FoldsCase(x: Exclusion) { x.ExSingleExt? || x.ExPartsExt? }

  function LowerAll(s: set<string>): set<string> { set e | e in s :: T.Lower(e) }

  /** What loading makes of a listed exclusion. */
  function Folded(x: Exclusion, listed: set<string>): set<string> { if FoldsCase(x) then LowerAll(listed) else listed }

  /** Settings that are read and written as they stand. */
  datatype Plain =
    | PSkipHash | PSkipTitleId | PEmbedTitleIds | PDebug | PCacheLimit | PDisableAutoUnload | PDisableBatchBootup
    | PAutoSaveSync | PNetplay | PIceServers | PSettings | PMetadata | PArtwork | PRegion | PLanguage
    | PGamelistExport | PPegasusExport

  const PLAINS: set<Plain> :=
    {PSkipHash, PSkipTitleId, PEmbedTitleIds, PDebug, PCacheLimit, PDisableAutoUnload, PDisableBatchBootup,
     PAutoSaveSync, PNetplay, PIceServers, PSettings, PMetadata, PArtwork, PRegion, PLanguage,
     PGamelistExport, PPegasusExport}

  function Strings(texts: seq<string>): Yaml { List(seq(|texts|, i requires 0 <= i < |texts| => Str(texts[i]))) }

  function DefaultOf(p: Plain): Yaml {
    match p
    case PCacheLimit => Null
    case PIceServers => List([])
    case PSettings => Dict(map[])
    case PMetadata =>
      Strings(["igdb", "moby", "ss", "ra", "launchbox", "gamelist", "hasheous", "tgdb", "flashpoint", "steam", "hltb",
               "demozoo", "pouet", "csdb"])
    case PArtwork =>
      Strings(["sgdb", "igdb", "moby", "ss", "libretro", "ra", "launchbox", "gamelist", "hasheous", "tgdb", "flashpoint",
               "steam", "hltb", "demozoo", "pouet", "csdb"])
    case PRegion => Strings(["us", "wor", "ss", "eu", "jp"])
    case PLanguage => Strings(["en"])
    case _ => Bool(false)
  }

  /** The check at load time; three settings have none. */
  predicate Accepts(p: Plain, y: Yaml) {
    match p
    case PSkipHash => true
    case PSkipTitleId => true
    case PEmbedTitleIds => true
    case PCacheLimit => y.Null? || y.Int? || y.Bool?
    case PIceServers => y.List?
    case PMetadata => y.List?
    case PArtwork => y.List?
    case PRegion => y.List?
    case PLanguage => y.List?
    case PSettings => y.Dict? && forall k | k in y.entries :: y.entries[k].Dict?
    case _ => y.Bool?
  }

  function Find(raw: Yaml, p: Plain): Option<Yaml> {
    var r := Some(raw);
    var fs, ejs, scan := Child(r, Filesystem), Child(r, Emulatorjs), Child(r, Scan);
    match p
    case PSkipHash => Child(fs, SkipHash)
    case PSkipTitleId => Child(fs, SkipTitleId)
    case PEmbedTitleIds => Child(fs, EmbedTitleIds)
    case PDebug => Child(ejs, Debug)
    case PCacheLimit => Child(ejs, CacheLimit)
    case PDisableAutoUnload => Child(ejs, DisableAutoUnload)
    case PDisableBatchBootup => Child(ejs, DisableBatchBootup)
    case PAutoSaveSync => Child(ejs, AutoSaveSync)
    case PNetplay => Child(Child(ejs, Netplay), Enabled)
    case PIceServers => Child(Child(ejs, Netplay), IceServers)
    case PSettings => Child(ejs, Settings)
    case PMetadata => Child(Child(scan, Priority), Metadata)
    case PArtwork => Child(Child(scan, Priority), Artwork)
    case PRegion => Child(Child(scan, Priority), Region)
    case PLanguage => Child(Child(scan, Priority), Language)
    case PGamelistExport => Child(Child(scan, Gamelist), Export)
    case PPegasusExport => Child(Child(scan, Pegasus), Export)
  }

  function FindExclusion(raw: Yaml, x: Exclusion): Option<Yaml> {
    var exclude := Child(Some(raw), Exclude);
    var roms := Child(exclude, Roms);
    match x
    case ExPlatforms => Child(exclude, Platforms)
    case ExSingleExt => Child(Child(roms, SingleFile), Extensions)
    case ExSingleFiles => Child(Child(roms, SingleFile), Names)
    case ExMultiFiles => Child(Child(roms, MultiFile), Names)
    case ExPartsExt => Child(Child(Child(roms, MultiFile), Parts), Extensions)
    case ExPartsFiles => Child(Child(Child(roms, MultiFile), Parts), Names)
  }

  /** The buttons of the four players of one core. */
  datatype Players = Players(p0: Yaml, p1: Yaml, p2: Yaml, p3: Yaml)

  datatype Config = Config(
    exclusions: Six<seq<string>>,
    plain: map<Plain, Yaml>,
    bindings: map<string, string>, versions: map<string, string>, cores: map<string, string>,
    structure: map<string, T.Value>,
    controls: map<Key, Players>,
    cover: Option<Yaml>, screenshot: Option<Yaml>, manual: Option<Yaml>,
    regionMode: string, media: seq<string>, thumbnail: string, image: string,
    streamingEnabled: bool, containers: seq<Yaml>)

  // ---- Reading ----

  predicate AllText(y: Yaml) {
    y.List? && forall i | 0 <= i < |y.items| :: y.items[i].Str?
  }

  function Texts(items: seq<Yaml>): seq<string>
    requires forall i | 0 <= i < |items| :: items[i].Str?
  {
    seq(|items|, i requires 0 <= i < |items| => items[i].text)
  }

  function LoadExclusion(raw: Yaml, x: Exclusion): Option<seq<string>> {
    var y := FindExclusion(raw, x).GetOr(List([]));
    if AllText(y) then Some(Sorted(Defaults(x) + Folded(x, Members(Texts(y.items))))) else None
  }

  function LoadPlain(raw: Yaml): Option<map<Plain, Yaml>> {
    var plain := map p | p in PLAINS :: Find(raw, p).GetOr(DefaultOf(p));
    if forall p | p in plain :: Accepts(p, plain[p]) then Some(plain) else None
  }

  /** The first in order of the keys that lowercase alike. The order of the file, by which
      the last of them wins, is not part of this model. */
  function Lowered<V>(m: map<string, V>): map<string, V> {
    var keys := m.Keys;
    map low | low in LowerAll(keys) :: m[Origin(keys, low)]
  }

  function Origin(keys: set<string>, low: string): (k: string)
    requires low in LowerAll(keys)
    ensures k in keys && T.Lower(k) == low
  {
    var alike := set k | k in keys && T.Lower(k) == low;
    var k :| k in keys && T.Lower(k) == low;
    assert k in alike;
    LeastOf(alike)
  }

  predicate Falsy(y: Yaml) {
    match y
    case Null => true
    case Bool(flag) => !flag
    case Int(n) => n == 0
    case Str(text) => text == ""
    case List(items) => items == []
    case Dict(entries) => entries == map[]
  }

  function IntegerText(n: int): string { if n < 0 then "-" + Decimal(-n) else Decimal(n) }

  function IntegerOf(text: string): int {
    if text != "" && text[0] == '-' then 0 - ParseNat(text[1..]).GetOr(0) else ParseNat(text).GetOr(0)
  }

  lemma {:induction false} DecimalStarts(n: nat)
    ensures Decimal(n) != "" && '0' <= Decimal(n)[0] <= '9'
  {
    if n >= 10 { DecimalStarts(n / 10); }
  }

  lemma IntegerReadsBack(n: int)
    ensures IntegerOf(IntegerText(n)) == n
  {
    if n < 0 {
      DecimalParses(-n);
      assert IntegerText(n)[1..] == Decimal(-n);
    } else {
      DecimalParses(n);
      DecimalStarts(n);
    }
  }

  predicate NamedKeys(entries: map<Key, Yaml>) { forall k | k in entries :: k.Text? || k.Number? }

  /** A number the user wrote as a key is read as the text of that number. */
  function NameOf(k: Key): string
    requires k.Text? || k.Number?
  {
    if k.Text? then k.text else IntegerText(k.n)
  }

  function KeyTexts(entries: map<Key, Yaml>): set<string>
    requires NamedKeys(entries)
  {
    set k | k in entries :: NameOf(k)
  }

  /** The entry of a name; text is preferred to the number of that text. */
  function KeyFor(entries: map<Key, Yaml>, name: string): (k: Key)
    requires NamedKeys(entries) && name in KeyTexts(entries)
    ensures k in entries && NameOf(k) == name
  {
    if Text(name) in entries then Text(name)
    else
      NumberFor(entries, name);
      Number(IntegerOf(name))
  }

  lemma NumberFor(entries: map<Key, Yaml>, name: string)
    requires NamedKeys(entries) && name in KeyTexts(entries) && Text(name) !in entries
    ensures Number(IntegerOf(name)) in entries && IntegerText(IntegerOf(name)) == name
  {
    var k :| k in entries && NameOf(k) == name;
    assert k.Text? ==> k == Text(name);
    IntegerReadsBack(k.n);
  }

  predicate NameMap(y: Yaml) {
    y.Dict? && NamedKeys(y.entries) && forall k | k in y.entries :: y.entries[k].Str? && y.entries[k].text != ""
  }

  /** A mapping of names to non-empty strings; a falsy value counts as empty. */
  function LoadNames(y: Option<Yaml>): Option<map<string, string>> {
    if y.None? || Falsy(y.value) then Some(map[])
    else if NameMap(y.value) then
      Some(Lowered(map name | name in KeyTexts(y.value.entries) :: y.value.entries[KeyFor(y.value.entries, name)].text))
    else None
  }

  function LoadValue(y: Yaml): Option<T.Value> {
    if y.Str? then Some(T.One(y.text)) else if AllText(y) then Some(T.Many(Texts(y.items))) else None
  }

  predicate TemplateMap(y: Yaml) {
    y.Dict? && NamedKeys(y.entries) && forall k | k in y.entries :: LoadValue(y.entries[k]).Some?
  }

  function LoadStructure(y: Option<Yaml>): Option<map<string, T.Value>> {
    var dict := y.GetOr(Dict(map[]));
    if !TemplateMap(dict) then None
    else
      var templates := Lowered(map name | name in KeyTexts(dict.entries) :: LoadValue(dict.entries[KeyFor(dict.entries, name)]).value);
      if T.Accepted(templates) then Some(templates) else None
  }

  predicate ButtonMap(y: Yaml) { y.Dict? && forall k | k in y.entries :: y.entries[k].Dict? }

  function PlayerOf(core: Yaml, n: int): Yaml
    requires core.Dict?
  {
    if Number(n) in core.entries then core.entries[Number(n)] else Dict(map[])
  }

  /** Only players 0 to 3 are kept, and a missing one has no buttons. */
  function LoadPlayers(core: Yaml): Option<Players> {
    if !core.Dict? then None
    else
      var p := Players(PlayerOf(core, 0), PlayerOf(core, 1), PlayerOf(core, 2), PlayerOf(core, 3));
      if ButtonMap(p.p0) && ButtonMap(p.p1) && ButtonMap(p.p2) && ButtonMap(p.p3) then Some(p) else None
  }

  predicate ControlMap(y: Yaml) {
    y.Dict? && forall k | k in y.entries :: LoadPlayers(y.entries[k]).Some?
  }

  /** The cores keep the keys they have. */
  function LoadControls(y: Option<Yaml>): Option<map<Key, Players>> {
    var dict := y.GetOr(Dict(map[]));
    if ControlMap(dict) then Some(map core | core in dict.entries :: LoadPlayers(dict.entries[core]).value) else None
  }

  /** An override that is missing or null is no override; any other must be a list. */
  predicate OverrideOk(y: Option<Yaml>) { y.None? || y.value.Null? || y.value.List? }

  function LoadOverride(y: Option<Yaml>): Option<Yaml> {
    if y.Some? && y.value.List? then y else None
  }

  const REGION_MODES: set<string> := {"prefer_rom_tags", "prefer_config"}
  const MEDIA_TYPES: set<string> :=
    {"bezel", "box2d", "box2d_back", "box2d_side", "box3d", "miximage", "miximage_v2", "physical", "screenshot",
     "title_screen", "marquee", "logo", "fanart", "video", "video_normalized", "manual"}
  const THUMBNAILS: set<string> := {"box2d", "box3d", "miximage", "miximage_v2", "physical"}
  const IMAGES: set<string> := {"title_screen", "miximage", "miximage_v2", "box2d", "screenshot"}

  function LoadRegionMode(y: Option<Yaml>): string {
    if y.Some? && y.value.Str? && y.value.text in REGION_MODES then y.value.text else "prefer_rom_tags"
  }

  predicate IsMedia(name: string) { name in MEDIA_TYPES }

  function Known(items: seq<Yaml>): seq<string> {
    if items == [] then []
    else (if items[0].Str? && IsMedia(items[0].text) then [items[0].text] else []) + Known(items[1..])
  }

  function LoadMedia(y: Option<Yaml>): Option<seq<string>> {
    if y.None? then Some(["box2d", "screenshot", "manual"])
    else if y.value.List? then Some(Known(y.value.items)) else None
  }

  function LoadChoice(y: Option<Yaml>, valid: set<string>, fallback: string): Option<string> {
    if y.None? then Some(fallback)
    else if y.value.Str? then Some(if y.value.text in valid then y.value.text else fallback) else None
  }

  function LoadFlag(y: Option<Yaml>): Option<bool> {
    if y.None? then Some(false) else if y.value.Bool? then Some(y.value.flag) else None
  }

  function LoadContainers(y: Option<Yaml>): Option<seq<Yaml>> {
    if y.None? then Some([]) else if y.value.List? then Some(y.value.items) else None
  }

  predicate Retired(raw: Yaml) {
    var fs := Child(Some(raw), Filesystem);
    || (Child(fs, RomsFolder).Some? && !Child(fs, RomsFolder).value.Null?)
    || (Child(fs, FirmwareFolder).Some? && !Child(fs, FirmwareFolder).value.Null?)
  }

  function LoadExclusions(raw: Yaml): Option<Six<seq<string>>> {
    var a, b, c := LoadExclusion(raw, ExPlatforms), LoadExclusion(raw, ExSingleExt), LoadExclusion(raw, ExSingleFiles);
    var d, e, f := LoadExclusion(raw, ExMultiFiles), LoadExclusion(raw, ExPartsExt), LoadExclusion(raw, ExPartsFiles);
    if a.Some? && b.Some? && c.Some? && d.Some? && e.Some? && f.Some? then
      Some(Six(a.value, b.value, c.value, d.value, e.value, f.value))
    else None
  }

  datatype Scanning = Scanning(cover: Option<Yaml>, screenshot: Option<Yaml>, manual: Option<Yaml>, regionMode: string,
                               media: seq<string>, thumbnail: string, image: string)

  function LoadScan(raw: Yaml): Option<Scanning> {
    var scan := Child(Some(raw), Scan);
    var priority, pictures := Child(scan, Priority), Child(Child(scan, Gamelist), Media);
    var media := LoadMedia(Child(scan, Media));
    var thumbnail, image := LoadChoice(Child(pictures, Thumbnail), THUMBNAILS, "box2d"),
                            LoadChoice(Child(pictures, Image), IMAGES, "screenshot");
    if OverrideOk(Child(priority, Cover)) && OverrideOk(Child(priority, Screenshot)) && OverrideOk(Child(priority, Manual))
       && media.Some? && thumbnail.Some? && image.Some? then
      Some(Scanning(LoadOverride(Child(priority, Cover)), LoadOverride(Child(priority, Screenshot)),
                    LoadOverride(Child(priority, Manual)), LoadRegionMode(Child(priority, RegionMode)),
                    media.value, thumbnail.value, image.value))
    else None
  }

  /** Reading the file; None stands for a refusal that stops the program. */
  function Load(raw: Yaml): Option<Config> {
    var r := Some(raw);
    var ejs, system, streaming := Child(r, Emulatorjs), Child(r, System), Child(r, Streaming);
    var exclusions, plain, scan := LoadExclusions(raw), LoadPlain(raw), LoadScan(raw);
    var bindings, versions, cores :=
      LoadNames(Child(system, Platforms)), LoadNames(Child(system, Versions)), LoadNames(Child(ejs, DefaultCores));
    var structure, controls := LoadStructure(Child(Child(r, Filesystem), StructureKey)), LoadControls(Child(ejs, Controls));
    var enabled, containers := LoadFlag(Child(streaming, Enabled)), LoadContainers(Child(streaming, Containers));
    if !Retired(raw) && exclusions.Some? && plain.Some? && scan.Some? && bindings.Some? && versions.Some? && cores.Some?
       && structure.Some? && controls.Some? && enabled.Some? && containers.Some? then
      Some(Config(exclusions.value, plain.value, bindings.value, versions.value, cores.value, structure.value,
                  controls.value, scan.value.cover, scan.value.screenshot, scan.value.manual, scan.value.regionMode,
                  scan.value.media, scan.value.thumbnail, scan.value.image, enabled.value, containers.value))
    else None
  }

  // ---- Writing ----

  function TextsOf(names: set<string>): set<Key> { set name | name in names :: Text(name) }

  function SaveNames(m: map<string, string>): Yaml { Dict(map k | k in TextsOf(m.Keys) :: Str(m[k.text])) }

  function SaveValue(v: T.Value): Yaml { if v.One? then Str(v.template) else Strings(v.templates) }

  function SaveStructure(m: map<string, T.Value>): Yaml { Dict(map k | k in TextsOf(m.Keys) :: SaveValue(m[k.text])) }

  function SavePlayers(p: Players): Yaml {
    Dict(map[Number(0) := p.p0, Number(1) := p.p1, Number(2) := p.p2, Number(3) := p.p3])
  }

  function SaveControls(m: map<Key, Players>): Yaml { Dict(map core | core in m :: SavePlayers(m[core])) }

  function WithOverride(entries: map<Key, Yaml>, s: Section, value: Option<Yaml>): map<Key, Yaml> {
    if value.Some? then entries[Sec(s) := value.value] else entries
  }

  function PlainAt(c: Config, p: Plain): Yaml { if p in c.plain then c.plain[p] else DefaultOf(p) }

  function SaveExclude(e: Six<seq<string>>): Yaml {
    Dict(map[
      Sec(Platforms) := Strings(e.platforms),
      Sec(Roms) := Dict(map[
        Sec(SingleFile) := Dict(map[Sec(Extensions) := Strings(e.singleExt), Sec(Names) := Strings(e.singleFiles)]),
        Sec(MultiFile) := Dict(map[
          Sec(Names) := Strings(e.multiFiles),
          Sec(Parts) := Dict(map[Sec(Extensions) := Strings(e.partsExt), Sec(Names) := Strings(e.partsFiles)])])])])
  }

  function SaveFilesystem(c: Config): Yaml {
    Dict(map[
      Sec(StructureKey) := SaveStructure(c.structure),
      Sec(SkipHash) := PlainAt(c, PSkipHash),
      Sec(SkipTitleId) := PlainAt(c, PSkipTitleId),
      Sec(EmbedTitleIds) := PlainAt(c, PEmbedTitleIds)])
  }

  function SaveSystem(c: Config): Yaml {
    Dict(map[Sec(Platforms) := SaveNames(c.bindings), Sec(Versions) := SaveNames(c.versions)])
  }

  function SaveEmulatorjs(c: Config): Yaml {
    Dict(map[
      Sec(Debug) := PlainAt(c, PDebug),
      Sec(CacheLimit) := PlainAt(c, PCacheLimit),
      Sec(DisableAutoUnload) := PlainAt(c, PDisableAutoUnload),
      Sec(DisableBatchBootup) := PlainAt(c, PDisableBatchBootup),
      Sec(AutoSaveSync) := PlainAt(c, PAutoSaveSync),
      Sec(Netplay) := Dict(map[Sec(Enabled) := PlainAt(c, PNetplay), Sec(IceServers) := PlainAt(c, PIceServers)]),
      Sec(DefaultCores) := SaveNames(c.cores),
      Sec(Settings) := PlainAt(c, PSettings),
      Sec(Controls) := SaveControls(c.controls)])
  }

  function SavePriority(c: Config): Yaml {
    var entries := map[
      Sec(Metadata) := PlainAt(c, PMetadata),
      Sec(Artwork) := PlainAt(c, PArtwork),
      Sec(Region) := PlainAt(c, PRegion),
      Sec(RegionMode) := Str(c.regionMode),
      Sec(Language) := PlainAt(c, PLanguage)];
    Dict(WithOverride(WithOverride(WithOverride(entries, Cover, c.cover), Screenshot, c.screenshot), Manual, c.manual))
  }

  function SaveScan(c: Config): Yaml {
    Dict(map[
      Sec(Priority) := SavePriority(c),
      Sec(Media) := Strings(c.media),
      Sec(Gamelist) := Dict(map[
        Sec(Export) := PlainAt(c, PGamelistExport),
        Sec(Media) := Dict(map[Sec(Thumbnail) := Str(c.thumbnail), Sec(Image) := Str(c.image)])]),
      Sec(Pegasus) := Dict(map[Sec(Export) := PlainAt(c, PPegasusExport)])])
  }

  /** The streaming section is written only when it says something. */
  function Save(c: Config): Yaml {
    var sections := map[
      Sec(Exclude) := SaveExclude(c.exclusions),
      Sec(Filesystem) := SaveFilesystem(c),
      Sec(System) := SaveSystem(c),
      Sec(Emulatorjs) := SaveEmulatorjs(c),
      Sec(Scan) := SaveScan(c)];
    Dict(if c.streamingEnabled || c.containers != [] then
           sections[Sec(Streaming) := Dict(map[Sec(Enabled) := Bool(c.streamingEnabled), Sec(Containers) := List(c.containers)])]
         else sections)
  }

  // ---- The setters ----

  function RemoveFirst(list: seq<string>, v: string): seq<string> {
    if list == [] then [] else if list[0] == v then list[1..] else [list[0]] + RemoveFirst(list[1..], v)
  }

  /** A request that replaces the scan section; the region mode is not part of it. */
  datatype ScanUpdate = ScanUpdate(
    metadata: seq<string>, artwork: seq<string>, cover: Option<seq<string>>, screenshot: Option<seq<string>>,
    manual: Option<seq<string>>, region: seq<string>, language: seq<string>, media: seq<string>,
    gamelistExport: bool, thumbnail: string, image: string, pegasusExport: bool)

  function ListOf(texts: Option<seq<string>>): Option<Yaml> { if texts.Some? then Some(Strings(texts.value)) else None }

  function ScanUpdated(c: Config, u: ScanUpdate): Config {
    c.(plain := c.plain[PMetadata := Strings(u.metadata)][PArtwork := Strings(u.artwork)][PRegion := Strings(u.region)]
                  [PLanguage := Strings(u.language)][PGamelistExport := Bool(u.gamelistExport)][PPegasusExport := Bool(u.pegasusExport)],
       cover := ListOf(u.cover), screenshot := ListOf(u.screenshot), manual := ListOf(u.manual),
       media := u.media, thumbnail := u.thumbnail, image := u.image)
  }

  datatype Change =
    | AddBinding(fsSlug: string, slug: string)
    | RemoveBinding(fsSlug: string)
    | AddVersion(fsSlug: string, slug: string)
    | RemoveVersion(fsSlug: string)
    | AddExclusion(list: Exclusion, value: string)
    | RemoveExclusion(list: Exclusion, value: string)
    | UpdateScan(update: ScanUpdate)

  /** The settings a change writes; None where there is nothing to do or the request raises. */
  function Changed(c: Config, ch: Change): Option<Config> {
    match ch
    case AddBinding(fs, slug) =>
      if T.Lower(fs) in c.bindings then None else Some(c.(bindings := c.bindings[T.Lower(fs) := slug]))
    case RemoveBinding(fs) => Some(c.(bindings := c.bindings - {T.Lower(fs)}))
    case AddVersion(fs, slug) =>
      if T.Lower(fs) in c.versions then None else Some(c.(versions := c.versions[T.Lower(fs) := slug]))
    case RemoveVersion(fs) => Some(c.(versions := c.versions - {T.Lower(fs)}))
    case AddExclusion(x, value) =>
      if value in c.exclusions.At(x) then None
      else Some(c.(exclusions := c.exclusions.With(x, c.exclusions.At(x) + [value])))
    case RemoveExclusion(x, value) =>
      Some(c.(exclusions := c.exclusions.With(x, RemoveFirst(c.exclusions.At(x), value))))
    case UpdateScan(u) =>
      if IsMedia(u.thumbnail) && IsMedia(u.image) then Some(ScanUpdated(c, u)) else None
  }

  /** What a change that is not written leaves in memory: an unknown picture type raises only
      once most of the scan section has been assigned. */
  function Unwritten(c: Config, ch: Change): Config {
    if ch.UpdateScan? then
      var u := ch.update;
      c.(plain := c.plain[PMetadata := Strings(u.metadata)][PArtwork := Strings(u.artwork)][PRegion := Strings(u.region)]
                    [PLanguage := Strings(u.language)][PGamelistExport := Bool(u.gamelistExport)],
         cover := ListOf(u.cover), screenshot := ListOf(u.screenshot), manual := ListOf(u.manual),
         media := u.media, thumbnail := if IsMedia(u.thumbnail) then u.thumbnail else c.thumbnail)
    else c
  }

  class ConfigManager {
    var config: Config
    var file: Yaml
    var writable: bool

    /** The file is only ever replaced by a complete rendering of the settings. */
    method UpdateConfigFile() returns (ok: bool)
      modifies this`file
      ensures ok == writable && file == if ok then Save(config) else old(file)
    {
      ok := writable;
      if ok {
        file := Save(config);
      }
    }

    method GetConfig() returns (ok: bool)
      modifies this`config
      ensures ok <==> Load(file).Some?
      ensures config == if ok then Load(file).value else old(config)
    {
      var loaded := Load(file);
      ok := loaded.Some?;
      if ok {
        config := loaded.value;
      }
    }

    /** The setting changes in memory even when the file then cannot be written. */
    method Apply(ch: Change) returns (written: bool)
      modifies this`config, this`file
      ensures config == Changed(old(config), ch).GetOr(Unwritten(old(config), ch))
      ensures written == (Changed(old(config), ch).Some? && writable)
      ensures file == if written then Save(config) else old(file)
    {
      hide Changed, Unwritten, Save;
      var changed := Changed(config, ch);
      if changed.None? {
        config := Unwritten(config, ch);
        return false;
      }
      config := changed.value;
      written := UpdateConfigFile();
    }
  }
}
