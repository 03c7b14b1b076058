/** Saving and loading: exactly what comes back, for any settings in memory. */
module ConfigStoreProofs {
  import opened Common
  import opened ConfigStore
  import T = Templates

  // ---- Looking things up in what was saved ----

  lemma FindsTop(c: Config)
    ensures var r := Some(Save(c));
            && Child(r, Exclude) == Some(SaveExclude(c.exclusions)) && Child(r, Filesystem) == Some(SaveFilesystem(c))
            && Child(r, System) == Some(SaveSystem(c)) && Child(r, Emulatorjs) == Some(SaveEmulatorjs(c))
            && Child(r, Scan) == Some(SaveScan(c))
  {
    hide SaveExclude, SaveFilesystem, SaveSystem, SaveEmulatorjs, SaveScan;
  }

  lemma FindsStreaming(c: Config)
    ensures var streaming := Child(Some(Save(c)), Streaming);
            && LoadFlag(Child(streaming, Enabled)) == Some(c.streamingEnabled)
            && LoadContainers(Child(streaming, Containers)) == Some(c.containers)
  {
    hide SaveFilesystem, SaveSystem, SaveEmulatorjs, SaveScan, SaveExclude;
  }

  lemma FindsInFilesystem(c: Config)
    ensures var fs := Some(SaveFilesystem(c));
            && Child(fs, StructureKey) == Some(SaveStructure(c.structure))
            && Child(fs, SkipHash) == Some(PlainAt(c, PSkipHash)) && Child(fs, SkipTitleId) == Some(PlainAt(c, PSkipTitleId))
            && Child(fs, EmbedTitleIds) == Some(PlainAt(c, PEmbedTitleIds))
            && Child(fs, RomsFolder) == None && Child(fs, FirmwareFolder) == None
  {
    hide SaveStructure, PlainAt;
  }

  lemma FindsInEmulatorjs(c: Config)
    ensures var ejs := Some(SaveEmulatorjs(c));
            && Child(ejs, Debug) == Some(PlainAt(c, PDebug)) && Child(ejs, CacheLimit) == Some(PlainAt(c, PCacheLimit))
            && Child(ejs, DisableAutoUnload) == Some(PlainAt(c, PDisableAutoUnload))
            && Child(ejs, DisableBatchBootup) == Some(PlainAt(c, PDisableBatchBootup))
            && Child(ejs, AutoSaveSync) == Some(PlainAt(c, PAutoSaveSync))
            && Child(Child(ejs, Netplay), Enabled) == Some(PlainAt(c, PNetplay))
            && Child(Child(ejs, Netplay), IceServers) == Some(PlainAt(c, PIceServers))
            && Child(ejs, Settings) == Some(PlainAt(c, PSettings))
            && Child(ejs, DefaultCores) == Some(SaveNames(c.cores)) && Child(ejs, Controls) == Some(SaveControls(c.controls))
  {
    hide SaveNames, SaveControls, PlainAt;
  }

  lemma FindsInPriority(c: Config)
    ensures var priority := Some(SavePriority(c));
            && Child(priority, Metadata) == Some(PlainAt(c, PMetadata)) && Child(priority, Artwork) == Some(PlainAt(c, PArtwork))
            && Child(priority, Region) == Some(PlainAt(c, PRegion)) && Child(priority, Language) == Some(PlainAt(c, PLanguage))
            && Child(priority, RegionMode) == Some(Str(c.regionMode))
            && Child(priority, Cover) == c.cover && Child(priority, Screenshot) == c.screenshot && Child(priority, Manual) == c.manual
  {
    hide PlainAt;
  }

  lemma FindsInScan(c: Config)
    ensures var scan := Some(SaveScan(c));
            && Child(scan, Priority) == Some(SavePriority(c)) && Child(scan, Media) == Some(Strings(c.media))
            && Child(Child(scan, Gamelist), Export) == Some(PlainAt(c, PGamelistExport))
            && Child(Child(Child(scan, Gamelist), Media), Thumbnail) == Some(Str(c.thumbnail))
            && Child(Child(Child(scan, Gamelist), Media), Image) == Some(Str(c.image))
            && Child(Child(scan, Pegasus), Export) == Some(PlainAt(c, PPegasusExport))
  {
    hide PlainAt, SavePriority, Strings;
  }

  lemma FindsPlain(c: Config, p: Plain)
    ensures Find(Save(c), p) == Some(PlainAt(c, p))
  {
    FindsTop(c);
    FindsInFilesystem(c);
    FindsInEmulatorjs(c);
    FindsInScan(c);
    FindsInPriority(c);
    hide Save, SaveFilesystem, SaveEmulatorjs, SaveScan, SavePriority, PlainAt, Child;
  }

  lemma FindsInExclude(e: Six<seq<string>>)
    ensures var exclude := Some(SaveExclude(e));
            var single, multi := Child(Child(exclude, Roms), SingleFile), Child(Child(exclude, Roms), MultiFile);
            && Child(exclude, Platforms) == Some(Strings(e.platforms))
            && Child(single, Extensions) == Some(Strings(e.singleExt)) && Child(single, Names) == Some(Strings(e.singleFiles))
            && Child(multi, Names) == Some(Strings(e.multiFiles))
            && Child(Child(multi, Parts), Extensions) == Some(Strings(e.partsExt))
            && Child(Child(multi, Parts), Names) == Some(Strings(e.partsFiles))
  {
    hide Strings;
  }

  lemma FindsExclusion(c: Config, x: Exclusion)
    ensures FindExclusion(Save(c), x) == Some(Strings(c.exclusions.At(x)))
  {
    FindsTop(c);
    FindsInExclude(c.exclusions);
    hide Save, SaveExclude, Strings, Child;
  }

  // ---- Each kind of setting ----

  lemma TextsOfStrings(texts: seq<string>)
    ensures AllText(Strings(texts)) && Texts(Strings(texts).items) == texts
  {
  }

  /** Keys written as text read back as the same names. */
  lemma KeysComeBack<V>(m: map<string, V>, entries: map<Key, Yaml>)
    requires entries.Keys == TextsOf(m.Keys)
    ensures NamedKeys(entries) && KeyTexts(entries) == m.Keys
    ensures forall name | name in m :: Text(name) in entries && KeyFor(entries, name) == Text(name)
  {
    forall name ensures name in KeyTexts(entries) <==> name in m {
      assert name in m ==> Text(name) in entries && Text(name).text == name;
    }
  }

  lemma LoweredEmpty(m: map<string, string>)
    requires m.Keys == {}
    ensures Lowered(m) == map[]
  {
  }

  lemma NamesComeBack(m: map<string, string>)
    ensures LoadNames(Some(SaveNames(m))) == if forall k | k in m :: m[k] != "" then Some(Lowered(m)) else None
  {
    var y := SaveNames(m);
    KeysComeBack(m, y.entries);
    assert forall name | name in m :: y.entries[Text(name)] == Str(m[name]);
    hide KeyTexts, TextsOf, Lowered;
    NamesLoad(m, y);
  }

  lemma NamesLoad(m: map<string, string>, y: Yaml)
    requires y.Dict? && NamedKeys(y.entries) && KeyTexts(y.entries) == m.Keys
    requires forall k | k in y.entries :: k.Text? && k.text in m
    requires forall name | name in m :: Text(name) in y.entries && y.entries[Text(name)] == Str(m[name])
    ensures LoadNames(Some(y)) == if forall k | k in m :: m[k] != "" then Some(Lowered(m)) else None
  {
    hide Lowered, KeyTexts, TextsOf;
    if y.entries == map[] {
      var entries := y.entries;
      forall name ensures name !in m { assert name in m ==> Text(name) in entries; }
      assert m.Keys == {};
      LoweredEmpty(m);
    } else {
      assert !Falsy(y);
      forall k | k in y.entries ensures y.entries[k] == Str(m[k.text]) { assert k == Text(k.text); }
      if forall k | k in m :: m[k] != "" {
        assert (map name | name in m.Keys :: y.entries[KeyFor(y.entries, name)].text) == m;
      } else {
        var k :| k in m && m[k] == "";
        assert Text(k) in y.entries;
      }
    }
  }

  lemma NumberIsLow(n: int)
    ensures T.Lower(IntegerText(n)) == IntegerText(n)
  {
    DecimalIsLow(if n < 0 then -n else n);
  }

  lemma {:induction false} DecimalIsLow(n: nat)
    ensures forall i | 0 <= i < |Decimal(n)| :: '0' <= Decimal(n)[i] <= '9'
  {
    if n >= 10 { DecimalIsLow(n / 10); }
  }

  lemma NumericKey(n: int, value: Yaml)
    ensures var entries, name := map[Number(n) := value], IntegerText(n);
            NamedKeys(entries) && KeyTexts(entries) == {name} && KeyFor(entries, name) == Number(n)
  {
    var entries := map[Number(n) := value];
    assert NameOf(Number(n)) == IntegerText(n);
    hide IntegerText;
    assert Number(n) in entries;
    assert IntegerText(n) in KeyTexts(entries);
  }

  lemma NumeralLoads(n: int, slug: string)
    requires slug != ""
    ensures LoadNames(Some(Dict(map[Number(n) := Str(slug)]))) == Some(map[IntegerText(n) := slug])
  {
    hide IntegerText, KeyFor, KeyTexts, NameOf, Lowered, NamedKeys, T.Lower;
    var entries, name := map[Number(n) := Str(slug)], IntegerText(n);
    NumericKey(n, Str(slug));
    assert Number(n) in entries && entries != map[];
    var named := map x | x in KeyTexts(entries) :: entries[KeyFor(entries, x)].text;
    assert named == map[name := slug];
    NumberIsLow(n);
    LoweredOfLow(named);
  }

  /** A platform folder that looks like a number may be written as one: it is read as its text. */
  lemma NumericNameLoads(n: int, slug: string)
    requires slug != ""
    ensures LoadNames(Some(Dict(map[Number(n) := Str(slug)])))
            == Some(map[(if n >= 0 then Decimal(n) else "-" + Decimal(-n)) := slug])
  {
    assert IntegerText(n) == if n >= 0 then Decimal(n) else "-" + Decimal(-n);
    hide IntegerText, LoadNames;
    NumeralLoads(n, slug);
  }

  lemma ValueComesBack(v: T.Value)
    ensures LoadValue(SaveValue(v)) == Some(v)
  {
    if v.Many? { TextsOfStrings(v.templates); }
  }

  lemma StructureComesBack(m: map<string, T.Value>)
    ensures LoadStructure(Some(SaveStructure(m))) == if T.Accepted(Lowered(m)) then Some(Lowered(m)) else None
  {
    hide Lowered, LoadValue, SaveValue, KeyTexts, KeyFor, TextsOf, T.Accepted;
    var y := SaveStructure(m);
    TemplatesComeBack(m, y.entries);
    assert (map name | name in KeyTexts(y.entries) :: LoadValue(y.entries[KeyFor(y.entries, name)]).value) == m;
  }

  lemma TemplatesComeBack(m: map<string, T.Value>, entries: map<Key, Yaml>)
    requires entries == map k | k in TextsOf(m.Keys) :: SaveValue(m[k.text])
    ensures TemplateMap(Dict(entries)) && KeyTexts(entries) == m.Keys
    ensures forall name | name in m :: LoadValue(entries[KeyFor(entries, name)]) == Some(m[name])
  {
    KeysComeBack(m, entries);
    hide LoadValue, SaveValue, KeyTexts, KeyFor;
    forall name | name in m ensures LoadValue(entries[Text(name)]) == Some(m[name]) { ValueComesBack(m[name]); }
    forall k | k in entries ensures LoadValue(entries[k]).Some? { assert k == Text(k.text); }
  }

  predicate AllButtons(p: Players) { ButtonMap(p.p0) && ButtonMap(p.p1) && ButtonMap(p.p2) && ButtonMap(p.p3) }

  lemma PlayersComeBack(p: Players)
    ensures LoadPlayers(SavePlayers(p)) == if AllButtons(p) then Some(p) else None
  {
    hide ButtonMap;
  }

  lemma ControlsComeBack(m: map<Key, Players>)
    ensures LoadControls(Some(SaveControls(m))) == if forall core | core in m :: AllButtons(m[core]) then Some(m) else None
  {
    hide LoadPlayers, SavePlayers, AllButtons;
    var y := SaveControls(m);
    forall core | core in m
      ensures LoadPlayers(y.entries[core]) == if AllButtons(m[core]) then Some(m[core]) else None
    {
      PlayersComeBack(m[core]);
    }
    assert y.entries.Keys == m.Keys;
    if forall core | core in m :: AllButtons(m[core]) {
      assert (map core | core in y.entries :: LoadPlayers(y.entries[core]).value) == m;
    } else {
      var core :| core in m && !AllButtons(m[core]);
      assert core in y.entries;
    }
  }

  lemma KnownOfStrings(texts: seq<string>)
    ensures LoadMedia(Some(Strings(texts))) == Some(KnownTexts(texts))
  {
    KnownItems(texts);
  }

  function KnownTexts(texts: seq<string>): seq<string> {
    if texts == [] then [] else (if IsMedia(texts[0]) then [texts[0]] else []) + KnownTexts(texts[1..])
  }

  lemma {:induction false} KnownItems(texts: seq<string>)
    ensures Known(Strings(texts).items) == KnownTexts(texts)
  {
    if texts != [] {
      assert Strings(texts).items[1..] == Strings(texts[1..]).items;
      KnownItems(texts[1..]);
      hide Strings;
    }
  }

  // ---- The whole file ----

  /** What loading makes of a list of exclusions held in memory. */
  function SettledList(x: Exclusion, list: seq<string>): seq<string> { Sorted(Defaults(x) + Folded(x, Members(list))) }

  function SettledExclusions(e: Six<seq<string>>): Six<seq<string>> {
    Six(SettledList(ExPlatforms, e.platforms), SettledList(ExSingleExt, e.singleExt), SettledList(ExSingleFiles, e.singleFiles),
        SettledList(ExMultiFiles, e.multiFiles), SettledList(ExPartsExt, e.partsExt), SettledList(ExPartsFiles, e.partsFiles))
  }

  /** The settings that come back from a file written from `c`. */
  function Settled(c: Config): Config {
    c.(exclusions := SettledExclusions(c.exclusions),
       bindings := Lowered(c.bindings), versions := Lowered(c.versions), cores := Lowered(c.cores),
       structure := Lowered(c.structure),
       regionMode := if c.regionMode in REGION_MODES then c.regionMode else "prefer_rom_tags",
       media := KnownTexts(c.media),
       thumbnail := if c.thumbnail in THUMBNAILS then c.thumbnail else "box2d",
       image := if c.image in IMAGES then c.image else "screenshot")
  }

  predicate Named(m: map<string, string>) { forall k | k in m :: m[k] != "" }

  predicate ListOrNone(y: Option<Yaml>) { y.Some? ==> y.value.List? }

  /** The settings a next start accepts. */
  predicate Loadable(c: Config) {
    && (forall p | p in PLAINS :: Accepts(p, PlainAt(c, p)))
    && Named(c.bindings) && Named(c.versions) && Named(c.cores)
    && T.Accepted(Lowered(c.structure))
    && (forall core | core in c.controls :: AllButtons(c.controls[core]))
  }

  predicate Complete(c: Config) { c.plain.Keys == PLAINS && ListOrNone(c.cover) && ListOrNone(c.screenshot) && ListOrNone(c.manual) }

  lemma ExclusionComesBack(c: Config, x: Exclusion)
    ensures LoadExclusion(Save(c), x) == Some(SettledList(x, c.exclusions.At(x)))
  {
    FindsExclusion(c, x);
    TextsOfStrings(c.exclusions.At(x));
    hide Save, Strings, Sorted, Defaults, Folded, FindExclusion, AllText, Texts;
  }

  lemma ExclusionsComeBack(c: Config)
    ensures LoadExclusions(Save(c)) == Some(SettledExclusions(c.exclusions))
  {
    hide Save, LoadExclusion, SettledList;
    ExclusionComesBack(c, ExPlatforms);
    ExclusionComesBack(c, ExSingleExt);
    ExclusionComesBack(c, ExSingleFiles);
    ExclusionComesBack(c, ExMultiFiles);
    ExclusionComesBack(c, ExPartsExt);
    ExclusionComesBack(c, ExPartsFiles);
  }

  lemma PlainComesBack(c: Config)
    requires c.plain.Keys == PLAINS
    ensures LoadPlain(Save(c)) == if forall p | p in PLAINS :: Accepts(p, PlainAt(c, p)) then Some(c.plain) else None
  {
    hide Save, Find, Accepts, DefaultOf;
    var saved := Save(c);
    forall p | p in PLAINS ensures Find(saved, p).GetOr(DefaultOf(p)) == c.plain[p] { FindsPlain(c, p); }
    PlainLoads(saved, c.plain);
  }

  lemma PlainLoads(saved: Yaml, plain: map<Plain, Yaml>)
    requires plain.Keys == PLAINS && forall p | p in PLAINS :: Find(saved, p).GetOr(DefaultOf(p)) == plain[p]
    ensures LoadPlain(saved) == if forall p | p in plain :: Accepts(p, plain[p]) then Some(plain) else None
  {
    hide Find, Accepts, DefaultOf;
    assert (map p | p in PLAINS :: Find(saved, p).GetOr(DefaultOf(p))) == plain;
  }

  lemma ScanComesBack(c: Config)
    requires Complete(c)
    ensures var s := Settled(c);
            LoadScan(Save(c)) == Some(Scanning(c.cover, c.screenshot, c.manual, s.regionMode, s.media, s.thumbnail, s.image))
  {
    FindsTop(c);
    FindsInScan(c);
    FindsInPriority(c);
    KnownOfStrings(c.media);
    hide Save, SaveScan, SavePriority, Child, Strings, KnownTexts, Lowered, SettledExclusions, LoadMedia;
  }

  /** What the parts of a saved file load as. */
  predicate Reads(c: Config, raw: Yaml) {
    var s, streaming := Settled(c), Child(Some(raw), Streaming);
    && LoadExclusions(raw) == Some(s.exclusions)
    && LoadPlain(raw) == (if forall p | p in PLAINS :: Accepts(p, PlainAt(c, p)) then Some(c.plain) else None)
    && LoadScan(raw) == Some(Scanning(c.cover, c.screenshot, c.manual, s.regionMode, s.media, s.thumbnail, s.image))
    && LoadFlag(Child(streaming, Enabled)) == Some(c.streamingEnabled)
    && LoadContainers(Child(streaming, Containers)) == Some(c.containers)
    && RestReads(c, raw)
  }

  lemma AllReads(c: Config)
    requires Complete(c)
    ensures Reads(c, Save(c))
  {
    ExclusionsComeBack(c);
    PlainComesBack(c);
    ScanComesBack(c);
    FindsStreaming(c);
    RestComesBack(c);
    hide Save, LoadExclusions, LoadPlain, LoadScan, LoadFlag, LoadContainers, Child, SettledExclusions, Lowered, KnownTexts,
         Accepts, PlainAt, RestReads;
  }

  lemma ReadsLoad(c: Config, raw: Yaml)
    requires Reads(c, raw) && Loadable(c)
    ensures Load(raw) == Some(Settled(c))
  {
    hide LoadExclusions, LoadPlain, LoadScan, LoadNames, LoadStructure, LoadControls, LoadFlag, LoadContainers, Child,
         SettledExclusions, Lowered, KnownTexts, Named, AllButtons, Accepts, PlainAt, Retired, T.Accepted;
  }

  lemma ReadsRefused(c: Config, raw: Yaml)
    requires Reads(c, raw) && !Loadable(c)
    ensures Load(raw) == None
  {
    hide LoadExclusions, LoadPlain, LoadScan, LoadNames, LoadStructure, LoadControls, LoadFlag, LoadContainers, Child,
         SettledExclusions, Lowered, KnownTexts, Named, AllButtons, Accepts, PlainAt, Retired, T.Accepted;
  }

  /** Whatever is in memory, what is written loads exactly when it is acceptable, and then
      comes back settled: exclusions merged, sorted and folded, names lowercased, unknown
      media dropped, and everything else as it was. */
  lemma SaveThenLoad(c: Config)
    requires Complete(c)
    ensures Load(Save(c)) == if Loadable(c) then Some(Settled(c)) else None
  {
    AllReads(c);
    hide Save, Reads, Loadable, Settled;
    if Loadable(c) { ReadsLoad(c, Save(c)); } else { ReadsRefused(c, Save(c)); }
  }

  lemma FindsRest(c: Config)
    ensures var r := Some(Save(c));
            && Child(Child(r, System), Platforms) == Some(SaveNames(c.bindings))
            && Child(Child(r, System), Versions) == Some(SaveNames(c.versions))
            && Child(Child(r, Emulatorjs), DefaultCores) == Some(SaveNames(c.cores))
            && Child(Child(r, Filesystem), StructureKey) == Some(SaveStructure(c.structure))
            && Child(Child(r, Emulatorjs), Controls) == Some(SaveControls(c.controls))
            && !Retired(Save(c))
  {
    FindsTop(c);
    FindsInFilesystem(c);
    FindsInEmulatorjs(c);
    hide Save, SaveEmulatorjs, SaveFilesystem, SaveNames, SaveStructure, SaveControls;
  }

  predicate RestReads(c: Config, raw: Yaml) {
    var r := Some(raw);
    && LoadNames(Child(Child(r, System), Platforms)) == (if Named(c.bindings) then Some(Lowered(c.bindings)) else None)
    && LoadNames(Child(Child(r, System), Versions)) == (if Named(c.versions) then Some(Lowered(c.versions)) else None)
    && LoadNames(Child(Child(r, Emulatorjs), DefaultCores)) == (if Named(c.cores) then Some(Lowered(c.cores)) else None)
    && LoadStructure(Child(Child(r, Filesystem), StructureKey)) ==
       (if T.Accepted(Lowered(c.structure)) then Some(Lowered(c.structure)) else None)
    && LoadControls(Child(Child(r, Emulatorjs), Controls)) ==
       (if forall core | core in c.controls :: AllButtons(c.controls[core]) then Some(c.controls) else None)
    && !Retired(raw)
  }

  lemma RestComesBack(c: Config)
    ensures RestReads(c, Save(c))
  {
    FindsRest(c);
    NamesComeBack(c.bindings);
    NamesComeBack(c.versions);
    NamesComeBack(c.cores);
    StructureComesBack(c.structure);
    ControlsComeBack(c.controls);
    hide Save, SaveNames, SaveStructure, SaveControls, Child, LoadNames, LoadStructure, LoadControls, Lowered, AllButtons,
         T.Accepted, Retired;
  }

  // ---- Loaded settings are settled ----

  predicate LowKeys<V>(m: map<string, V>) { forall k | k in m :: T.Lower(k) == k }

  lemma LowerTwice(text: string)
    ensures T.Lower(T.Lower(text)) == T.Lower(text)
  {
  }

  lemma LoweredHasLowKeys<V>(m: map<string, V>)
    ensures LowKeys(Lowered(m))
  {
    forall low | low in Lowered(m) ensures T.Lower(low) == low {
      LowerTwice(Origin(m.Keys, low));
    }
  }

  lemma LoweredOfLow<V>(m: map<string, V>)
    requires LowKeys(m)
    ensures Lowered(m) == m
  {
    assert LowerAll(m.Keys) == m.Keys by {
      forall k ensures k in LowerAll(m.Keys) <==> k in m.Keys {
        if k in m.Keys { assert T.Lower(k) == k; }
      }
    }
    forall low | low in m ensures Origin(m.Keys, low) == low {}
  }

  lemma FoldTwice(x: Exclusion, listed: set<string>)
    ensures var all := Defaults(x) + Folded(x, listed); Defaults(x) + Folded(x, all) == all
  {
    if FoldsCase(x) {
      var all := Defaults(x) + Folded(x, listed);
      forall e | e in all ensures T.Lower(e) == e {
        var o :| T.Lower(o) == e;
        LowerTwice(o);
      }
      forall e ensures e in LowerAll(all) <==> e in all {
        if e in all { assert T.Lower(e) == e; }
      }
    }
  }

  /** Settings as a load leaves them. */
  predicate AtRest(c: Config) { Complete(c) && Loadable(c) && Settled(c) == c }

  lemma SettledListStays(x: Exclusion, list: seq<string>)
    ensures SettledList(x, SettledList(x, list)) == SettledList(x, list)
  {
    FoldTwice(x, Members(list));
    hide Defaults, Folded;
  }

  lemma {:induction false} KnownAreKnown(items: seq<Yaml>)
    ensures KnownTexts(Known(items)) == Known(items)
  {
    hide IsMedia;
    if items != [] {
      KnownAreKnown(items[1..]);
      var all, rest := Known(items), Known(items[1..]);
      if items[0].Str? && IsMedia(items[0].text) {
        assert all == [items[0].text] + rest && all[1..] == rest;
      } else {
        assert all == rest;
      }
    }
  }

  lemma NamesAtRest(y: Option<Yaml>)
    requires LoadNames(y).Some?
    ensures Named(LoadNames(y).value) && Lowered(LoadNames(y).value) == LoadNames(y).value
  {
    var m := LoadNames(y).value;
    if y.None? || Falsy(y.value) {
      LoweredEmpty(m);
    } else {
      var named := map name | name in KeyTexts(y.value.entries) :: y.value.entries[KeyFor(y.value.entries, name)].text;
      assert Named(named);
      LoweredHasLowKeys(named);
      LoweredOfLow(m);
    }
  }

  lemma StructureAtRest(y: Option<Yaml>)
    requires LoadStructure(y).Some?
    ensures T.Accepted(LoadStructure(y).value) && Lowered(LoadStructure(y).value) == LoadStructure(y).value
  {
    var dict := y.GetOr(Dict(map[]));
    var templates := map name | name in KeyTexts(dict.entries) :: LoadValue(dict.entries[KeyFor(dict.entries, name)]).value;
    hide T.Accepted;
    LoweredHasLowKeys(templates);
    LoweredOfLow(LoadStructure(y).value);
  }

  lemma ControlsAtRest(y: Option<Yaml>)
    requires LoadControls(y).Some?
    ensures forall core | core in LoadControls(y).value :: AllButtons(LoadControls(y).value[core])
  {
    hide ButtonMap;
  }

  lemma ExclusionAtRest(raw: Yaml, x: Exclusion)
    requires LoadExclusion(raw, x).Some?
    ensures SettledList(x, LoadExclusion(raw, x).value) == LoadExclusion(raw, x).value
  {
    var y := FindExclusion(raw, x).GetOr(List([]));
    assert AllText(y);
    hide FindExclusion, Sorted, Defaults, Folded;
    SettledListStays(x, Texts(y.items));
  }

  lemma ExclusionsAtRest(raw: Yaml)
    requires LoadExclusions(raw).Some?
    ensures SettledExclusions(LoadExclusions(raw).value) == LoadExclusions(raw).value
  {
    hide LoadExclusion, SettledList;
    ExclusionAtRest(raw, ExPlatforms);
    ExclusionAtRest(raw, ExSingleExt);
    ExclusionAtRest(raw, ExSingleFiles);
    ExclusionAtRest(raw, ExMultiFiles);
    ExclusionAtRest(raw, ExPartsExt);
    ExclusionAtRest(raw, ExPartsFiles);
  }

  lemma ScanAtRest(raw: Yaml)
    requires LoadScan(raw).Some?
    ensures var s := LoadScan(raw).value;
            && ListOrNone(s.cover) && ListOrNone(s.screenshot) && ListOrNone(s.manual)
            && s.regionMode in REGION_MODES && KnownTexts(s.media) == s.media && s.thumbnail in THUMBNAILS && s.image in IMAGES
  {
    var media := Child(Child(Some(raw), Scan), Media);
    if media.Some? && media.value.List? {
      KnownAreKnown(media.value.items);
    } else {
      DefaultMediaKnown();
    }
    hide Child, Known, KnownTexts;
  }

  lemma DefaultMediaKnown()
    ensures KnownTexts(["box2d", "screenshot", "manual"]) == ["box2d", "screenshot", "manual"]
  {
    assert IsMedia("box2d") && IsMedia("screenshot") && IsMedia("manual");
    hide IsMedia;
    assert ["box2d", "screenshot", "manual"][1..] == ["screenshot", "manual"] && ["screenshot", "manual"][1..] == ["manual"];
  }

  lemma LoadedIsAtRest(raw: Yaml)
    requires Load(raw).Some?
    ensures AtRest(Load(raw).value)
  {
    var r := Some(raw);
    hide LoadExclusions, LoadPlain, LoadScan, LoadNames, LoadStructure, LoadControls, Child, SettledExclusions, Lowered,
         KnownTexts, Named, AllButtons, Retired, T.Accepted, ListOrNone, Accepts, REGION_MODES, THUMBNAILS, IMAGES;
    ExclusionsAtRest(raw);
    ScanAtRest(raw);
    PlainAtRest(raw);
    NamesAtRest(Child(Child(r, System), Platforms));
    NamesAtRest(Child(Child(r, System), Versions));
    NamesAtRest(Child(Child(r, Emulatorjs), DefaultCores));
    StructureAtRest(Child(Child(r, Filesystem), StructureKey));
    ControlsAtRest(Child(Child(r, Emulatorjs), Controls));
  }

  lemma PlainAtRest(raw: Yaml)
    requires LoadPlain(raw).Some?
    ensures var plain := LoadPlain(raw).value; plain.Keys == PLAINS && forall p | p in PLAINS :: Accepts(p, plain[p])
  {
    hide Find, Accepts, DefaultOf;
  }

  /** Writing out what was loaded and loading that gives the same settings. */
  lemma PersistenceIsStable(raw: Yaml)
    requires Load(raw).Some?
    ensures Load(Save(Load(raw).value)) == Load(raw)
  {
    LoadedIsAtRest(raw);
    SaveThenLoad(Load(raw).value);
  }

  // ---- A setter, then a restart ----

  predicate NoRepeats(list: seq<string>) { forall i, j | 0 <= i < j < |list| :: list[i] != list[j] }

  lemma {:induction false} SortedNoRepeats(s: set<string>)
    ensures NoRepeats(Sorted(s))
    decreases |s|
  {
    if s != {} {
      var m := LeastOf(s);
      SortedNoRepeats(s - {m});
      var rest := Sorted(s - {m});
      assert m !in Members(rest);
      assert forall i | 0 <= i < |rest| :: rest[i] in Members(rest);
    }
  }

  lemma {:induction false} RemovedOnce(list: seq<string>, v: string)
    requires NoRepeats(list)
    ensures Members(RemoveFirst(list, v)) == Members(list) - {v}
  {
    if list != [] {
      var head, rest := list[0], list[1..];
      assert list == [head] + rest && Members(list) == {head} + Members(rest);
      assert forall i | 0 <= i < |rest| :: rest[i] == list[i + 1] && rest[i] != head;
      assert head !in Members(rest);
      if head != v {
        RemovedOnce(rest, v);
        assert Members([head] + RemoveFirst(rest, v)) == {head} + Members(RemoveFirst(rest, v));
      }
    }
  }

  lemma ListAtRest(c: Config, x: Exclusion)
    requires AtRest(c)
    ensures SettledList(x, c.exclusions.At(x)) == c.exclusions.At(x)
  {
    hide Complete, Loadable, Lowered, KnownTexts, SettledList;
  }

  lemma SettledNoRepeats(x: Exclusion, list: seq<string>)
    ensures NoRepeats(SettledList(x, list))
  {
    SortedNoRepeats(Defaults(x) + Folded(x, Members(list)));
    hide Sorted, Defaults, Folded, NoRepeats;
  }

  lemma FoldedUnion(x: Exclusion, a: set<string>, b: set<string>)
    ensures Folded(x, a + b) == Folded(x, a) + Folded(x, b)
  {
  }

  lemma FoldedInto(x: Exclusion, list: seq<string>)
    requires SettledList(x, list) == list
    ensures Members(list) == Defaults(x) + Folded(x, Members(list))
  {
    hide Folded, Defaults;
  }

  lemma MembersSnoc(list: seq<string>, v: string)
    ensures Members(list + [v]) == Members(list) + {v}
  {
  }

  /** Adding to an exclusion list and reloading adds that one entry, case folded. */
  lemma AddedExclusionSettles(x: Exclusion, list: seq<string>, v: string)
    requires SettledList(x, list) == list
    ensures SettledList(x, list + [v]) == Sorted(Members(list) + Folded(x, {v}))
  {
    MembersSnoc(list, v);
    FoldedUnion(x, Members(list), {v});
    FoldedInto(x, list);
    hide Sorted, Folded, Defaults, Members;
    assert Defaults(x) + (Folded(x, Members(list)) + Folded(x, {v})) == Members(list) + Folded(x, {v});
  }

  /** Entries of a list at rest are folded already. */
  lemma FoldedStays(x: Exclusion, list: seq<string>, less: set<string>)
    requires SettledList(x, list) == list && less <= Members(list)
    ensures Folded(x, less) == less
  {
    FoldedInto(x, list);
    if FoldsCase(x) {
      forall e | e in Members(list) ensures T.Lower(e) == e {
        var o :| T.Lower(o) == e;
        LowerTwice(o);
      }
      hide Defaults, Sorted, SettledList;
      forall e ensures e in LowerAll(less) <==> e in less {
        if e in less { assert T.Lower(e) == e; }
      }
    }
  }

  /** Removing one and reloading removes it only if it is not excluded by default. */
  lemma RemovedExclusionSettles(x: Exclusion, list: seq<string>, v: string)
    requires SettledList(x, list) == list
    ensures SettledList(x, RemoveFirst(list, v)) == if v in Defaults(x) then list else Sorted(Members(list) - {v})
  {
    hide Sorted, Folded, Defaults, Members, RemoveFirst, NoRepeats;
    var m := Members(list);
    SettledNoRepeats(x, list);
    RemovedOnce(list, v);
    FoldedInto(x, list);
    FoldedStays(x, list, m - {v});
    FoldedStays(x, list, m);
    WithoutOne(Defaults(x), m, v);
    assert SettledList(x, RemoveFirst(list, v)) == Sorted(Defaults(x) + (m - {v}));
    assert list == Sorted(m);
    hide SettledList;
  }

  lemma WithoutOne(kept: set<string>, all: set<string>, v: string)
    requires all == kept + all
    ensures kept + (all - {v}) == if v in kept then all else all - {v}
  {
  }

  lemma SamePlain(c: Config, c': Config)
    requires c'.plain == c.plain
    ensures forall p :: PlainAt(c', p) == PlainAt(c, p)
  {
    hide DefaultOf;
  }

  /** A list replaced by its settled form is the only thing a reload changes. */
  lemma ExclusionReload(c: Config, x: Exclusion, list: seq<string>)
    requires AtRest(c)
    ensures Load(Save(c.(exclusions := c.exclusions.With(x, list)))) ==
            Some(c.(exclusions := c.exclusions.With(x, SettledList(x, list))))
  {
    var c' := c.(exclusions := c.exclusions.With(x, list));
    hide Save, Load, Lowered, KnownTexts, Accepts, Named, AllButtons, ListOrNone, SettledList, T.Accepted, PlainAt;
    SamePlain(c, c');
    SaveThenLoad(c');
  }

  /** Settings with the same lists, plain settings, structure and scan section as some at rest. */
  lemma NamesReload(c: Config, bindings: map<string, string>, versions: map<string, string>)
    requires AtRest(c) && LowKeys(bindings) && LowKeys(versions)
    ensures var c' := c.(bindings := bindings, versions := versions);
            Load(Save(c')) == if Named(bindings) && Named(versions) then Some(c') else None
  {
    hide Save, Load, Lowered, Named, LowKeys, AtRest, Complete, Loadable, Settled;
    var c' := c.(bindings := bindings, versions := versions);
    LoweredOfLow(bindings);
    LoweredOfLow(versions);
    NamesSettle(c, c');
    SaveThenLoad(c');
  }

  lemma NamesSettle(c: Config, c': Config)
    requires AtRest(c) && c' == c.(bindings := c'.bindings, versions := c'.versions)
    requires Lowered(c'.bindings) == c'.bindings && Lowered(c'.versions) == c'.versions
    ensures Complete(c') && Settled(c') == c' && (Loadable(c') <==> Named(c'.bindings) && Named(c'.versions))
  {
    hide Lowered, KnownTexts, Accepts, Named, AllButtons, ListOrNone, SettledExclusions, T.Accepted, PlainAt;
    SamePlain(c, c');
  }

  lemma LowAtRest(c: Config)
    requires AtRest(c)
    ensures LowKeys(c.bindings) && LowKeys(c.versions) && Named(c.bindings) && Named(c.versions)
  {
    LoweredHasLowKeys(c.bindings);
    LoweredHasLowKeys(c.versions);
    hide Lowered, LowKeys, Named;
  }

  predicate ScanField(p: Plain) {
    p.PMetadata? || p.PArtwork? || p.PRegion? || p.PLanguage? || p.PGamelistExport? || p.PPegasusExport?
  }

  lemma ScanPlain(c: Config, u: ScanUpdate, p: Plain)
    requires c.plain.Keys == PLAINS && p in PLAINS && Accepts(p, PlainAt(c, p))
    ensures Accepts(p, PlainAt(ScanUpdated(c, u), p))
  {
    hide DefaultOf;
    if !ScanField(p) {
      assert PlainAt(ScanUpdated(c, u), p) == PlainAt(c, p);
    } else {
      assert p in ScanUpdated(c, u).plain;
    }
  }

  lemma ScanKeys(c: Config, u: ScanUpdate)
    requires c.plain.Keys == PLAINS
    ensures Complete(ScanUpdated(c, u))
  {
    hide DefaultOf;
  }

  lemma ScanLoadable(c: Config, u: ScanUpdate)
    requires AtRest(c)
    ensures Complete(ScanUpdated(c, u)) && Loadable(ScanUpdated(c, u))
  {
    hide Settled, Accepts, PlainAt, Lowered, Named, AllButtons, T.Accepted, ScanUpdated, ListOrNone;
    ScanKeys(c, u);
    SameBesidesScan(c, u);
    forall p | p in PLAINS ensures Accepts(p, PlainAt(ScanUpdated(c, u), p)) { ScanPlain(c, u, p); }
  }

  lemma SameBesidesScan(c: Config, u: ScanUpdate)
    ensures var c' := ScanUpdated(c, u);
            c'.bindings == c.bindings && c'.versions == c.versions && c'.cores == c.cores && c'.structure == c.structure
            && c'.controls == c.controls && c'.exclusions == c.exclusions
  {
    hide Strings, ListOf;
  }

  lemma ScanSettles(c: Config, u: ScanUpdate)
    requires Settled(c) == c
    ensures Settled(ScanUpdated(c, u)) ==
            ScanUpdated(c, u).(media := KnownTexts(u.media),
                               thumbnail := if u.thumbnail in THUMBNAILS then u.thumbnail else "box2d",
                               image := if u.image in IMAGES then u.image else "screenshot")
  {
    hide Lowered, KnownTexts, SettledExclusions, ListOf, Strings;
  }

  /** The scan page's update and a reload: the section is as sent, less unknown media types
      and picture types the tags do not allow; all other settings are as they were. */
  lemma ScanReload(c: Config, u: ScanUpdate)
    requires AtRest(c)
    ensures Load(Save(ScanUpdated(c, u))) ==
            Some(ScanUpdated(c, u).(media := KnownTexts(u.media),
                                    thumbnail := if u.thumbnail in THUMBNAILS then u.thumbnail else "box2d",
                                    image := if u.image in IMAGES then u.image else "screenshot"))
  {
    ScanLoadable(c, u);
    ScanSettles(c, u);
    hide Save, Load, Complete, Loadable, Settled, ScanUpdated, KnownTexts;
    SaveThenLoad(ScanUpdated(c, u));
  }

  /** What a restart should find after a change: a binding comes back unless it is empty,
      which the restart refuses; an extension is added in lower case; a default exclusion
      cannot be removed; and the scan section drops what it does not know. */
  function Expected(c: Config, ch: Change): Option<Config>
    requires Changed(c, ch).Some?
  {
    match ch
    case AddBinding(_, slug) => if slug != "" then Changed(c, ch) else None
    case AddVersion(_, slug) => if slug != "" then Changed(c, ch) else None
    case RemoveBinding(_) => Changed(c, ch)
    case RemoveVersion(_) => Changed(c, ch)
    case AddExclusion(x, v) =>
      Some(c.(exclusions := c.exclusions.With(x, Sorted(Members(c.exclusions.At(x)) + Folded(x, {v})))))
    case RemoveExclusion(x, v) =>
      Some(if v in Defaults(x) then c
           else c.(exclusions := c.exclusions.With(x, Sorted(Members(c.exclusions.At(x)) - {v}))))
    case UpdateScan(u) =>
      Some(ScanUpdated(c, u).(media := KnownTexts(u.media),
                              thumbnail := if u.thumbnail in THUMBNAILS then u.thumbnail else "box2d",
                              image := if u.image in IMAGES then u.image else "screenshot"))
  }

  /** Every setter, followed by a save and a restart, changes only what it names. */
  lemma ChangeThenReload(c: Config, ch: Change)
    requires AtRest(c) && Changed(c, ch).Some?
    ensures Load(Save(Changed(c, ch).value)) == Expected(c, ch)
  {
    hide Save, Load, AtRest, Sorted, Folded, Defaults, KnownTexts, ScanUpdated, SettledList, Named, LowKeys, Members, RemoveFirst, T.Lower;
    match ch
    case AddBinding(fs, slug) => BindingReload(c, fs, slug);
    case AddVersion(fs, slug) => VersionReload(c, fs, slug);
    case RemoveBinding(fs) => UnnamedReload(c, fs);
    case RemoveVersion(fs) => UnnamedReload(c, fs);
    case AddExclusion(x, v) =>
      ListAtRest(c, x);
      AddedExclusionSettles(x, c.exclusions.At(x), v);
      ExclusionReload(c, x, c.exclusions.At(x) + [v]);
    case RemoveExclusion(x, v) =>
      ListAtRest(c, x);
      RemovedExclusionSettles(x, c.exclusions.At(x), v);
      ExclusionReload(c, x, RemoveFirst(c.exclusions.At(x), v));
      assert c.exclusions.With(x, c.exclusions.At(x)) == c.exclusions;
    case UpdateScan(u) => ScanReload(c, u);
  }

  lemma BindingReload(c: Config, fs: string, slug: string)
    requires AtRest(c)
    ensures var c' := c.(bindings := c.bindings[T.Lower(fs) := slug]); Load(Save(c')) == if slug != "" then Some(c') else None
  {
    hide Save, Load, AtRest;
    LowAtRest(c);
    LowerTwice(fs);
    var bindings := c.bindings[T.Lower(fs) := slug];
    assert bindings[T.Lower(fs)] == slug;
    NamesReload(c, bindings, c.versions);
  }

  lemma VersionReload(c: Config, fs: string, slug: string)
    requires AtRest(c)
    ensures var c' := c.(versions := c.versions[T.Lower(fs) := slug]); Load(Save(c')) == if slug != "" then Some(c') else None
  {
    hide Save, Load, AtRest;
    LowAtRest(c);
    LowerTwice(fs);
    var versions := c.versions[T.Lower(fs) := slug];
    assert versions[T.Lower(fs)] == slug;
    NamesReload(c, c.bindings, versions);
  }

  lemma UnnamedReload(c: Config, fs: string)
    requires AtRest(c)
    ensures var c' := c.(bindings := c.bindings - {T.Lower(fs)}); Load(Save(c')) == Some(c')
    ensures var c' := c.(versions := c.versions - {T.Lower(fs)}); Load(Save(c')) == Some(c')
  {
    hide Save, Load, AtRest;
    LowAtRest(c);
    NamesReload(c, c.bindings - {T.Lower(fs)}, c.versions);
    NamesReload(c, c.bindings, c.versions - {T.Lower(fs)});
  }
}
