/** Layout templates print and parse back; exactly which are accepted; and what an accepted
    configuration guarantees to every platform folder. */
module TemplateProofs {
  import opened Common
  import opened Templates

  // ---- Sections of a joined path ----

  predicate Plain(section: string) { section != "" && '/' !in section }

  lemma {:induction false} SplitAppend(text: string, section: string)
    requires '/' !in section
    ensures Split(text + "/" + section) == Split(text) + [section]
  {
    if section == "" {
      assert (text + "/" + section)[..|text|] == text;
    } else {
      var front, last := section[..|section| - 1], section[|section| - 1];
      SplitAppend(text, front);
      assert (text + "/" + section)[..|text + "/" + section| - 1] == text + "/" + front;
      assert last in section;
      assert front + [last] == section;
    }
  }

  lemma {:induction false} SplitPlain(section: string)
    requires '/' !in section
    ensures Split(section) == [section]
  {
    if section != "" {
      SplitPlain(section[..|section| - 1]);
      assert section[|section| - 1] in section;
      assert section[..|section| - 1] + [section[|section| - 1]] == section;
    }
  }

  lemma {:induction false} SectionsOfJoin(sections: seq<string>)
    requires sections != [] && forall i | 0 <= i < |sections| :: Plain(sections[i])
    ensures Sections(Join(sections)) == sections
  {
    SplitJoin(sections);
    KeepNonEmpty(sections);
  }

  lemma {:induction false} SplitJoin(sections: seq<string>)
    requires sections != [] && forall i | 0 <= i < |sections| :: Plain(sections[i])
    ensures Split(Join(sections)) == sections
  {
    var front, last := sections[..|sections| - 1], sections[|sections| - 1];
    assert Plain(last) && front + [last] == sections;
    if |sections| == 1 {
      SplitPlain(last);
    } else {
      SplitJoin(front);
      SplitAppend(Join(front), last);
    }
  }

  lemma {:induction false} KeepNonEmpty(parts: seq<string>)
    requires forall i | 0 <= i < |parts| :: Plain(parts[i])
    ensures NonEmpty(parts) == parts
  {
    if parts != [] {
      assert Plain(parts[|parts| - 1]);
      KeepNonEmpty(parts[..|parts| - 1]);
      assert parts[..|parts| - 1] + [parts[|parts| - 1]] == parts;
    }
  }

  // ---- Printing ----

  function PrintLevel(level: Level): string { if level.Literal? then level.name else "{folder}" }

  function PrintLevels(levels: seq<Level>): seq<string> {
    seq(|levels|, i requires 0 <= i < |levels| => PrintLevel(levels[i]))
  }

  /** The platform folder is written as its macro or, for one platform, by its own name. */
  function PrintSections(t: Structure, platform: string): seq<string> {
    t.platformDir + [platform] + PrintLevels(t.levels) + ["{game}"]
  }

  function Print(t: Structure, platform: string): string { Join(PrintSections(t, platform)) }

  /** A folder name a template can spell. */
  predicate FolderName(name: string) {
    Plain(name) && name != "." && name != ".." && Classify(name).Folder?
  }

  predicate WellFormed(t: Structure) {
    && (forall name | name in t.platformDir :: FolderName(name))
    && (forall level | level in t.levels && level.Literal? :: FolderName(level.name))
  }

  lemma WildcardKind()
    ensures Classify("{folder}") == Macro("folder") && Classify("{platform}") == Macro(PLATFORM) && Classify("{game}") == Macro(GAME)
  {
    assert "{folder}"[1..7] == "folder" && "{platform}"[1..9] == "platform" && "{game}"[1..5] == "game";
    StripWord("folder");
    StripWord("platform");
    StripWord("game");
  }

  lemma StripWord(word: string)
    requires word == "" || (!IsSpace(word[0]) && !IsSpace(word[|word| - 1]))
    ensures Strip(word) == word
  {
  }

  /** Scanning folders that do not name the platform reaches the section that does. */
  lemma {:induction false} SplitFinds(before: seq<string>, rest: seq<string>, p: nat, slug: Option<string>)
    requires p < |rest| && NamesPlatform(rest[p], slug)
    requires forall i | 0 <= i < |before| :: Classify(before[i]).Folder?
    requires forall i | 0 <= i < p :: Classify(rest[i]).Folder? && !NamesPlatform(rest[i], slug)
    ensures SplitAtPlatform(before, rest, slug) == Ok((before + rest[..p], rest[p + 1..]))
    decreases p
  {
    if p == 0 {
      assert before + rest[..0] == before;
    } else {
      SplitFinds(before + [rest[0]], rest[1..], p - 1, slug);
      assert before + [rest[0]] + rest[1..][..p - 1] == before + rest[..p];
      assert rest[1..][p..] == rest[p + 1..];
    }
  }

  /** What scanning accepts, and nothing else: folders only before the first section that
      names the platform. */
  lemma {:induction false} SplitMeans(before: seq<string>, rest: seq<string>, slug: Option<string>) returns (p: nat)
    requires SplitAtPlatform(before, rest, slug).Ok?
    ensures p < |rest| && NamesPlatform(rest[p], slug)
    ensures forall i | 0 <= i < |before| :: Classify(before[i]).Folder?
    ensures forall i | 0 <= i < p :: Classify(rest[i]).Folder? && !NamesPlatform(rest[i], slug)
    decreases |rest|
  {
    if NamesPlatform(rest[0], slug) {
      p := 0;
    } else {
      var q := SplitMeans(before + [rest[0]], rest[1..], slug);
      p := q + 1;
      forall i | 0 <= i < |before| ensures Classify(before[i]).Folder? {
        assert (before + [rest[0]])[i] == before[i];
      }
      assert (before + [rest[0]])[|before|] == rest[0];
      forall i | 0 <= i < p ensures Classify(rest[i]).Folder? && !NamesPlatform(rest[i], slug) {
        if i > 0 { assert rest[i] == rest[1..][i - 1]; }
      }
    }
  }

  predicate LevelSection(section: string) {
    var kind := Classify(section);
    !kind.Bad? && kind != Macro(PLATFORM) && kind != Macro(GAME)
  }

  lemma {:induction false} LevelsExactly(sections: seq<string>)
    ensures ParseLevels(sections).Ok? <==> forall i | 0 <= i < |sections| :: LevelSection(sections[i])
    ensures ParseLevels(sections).Ok? ==>
              && |ParseLevels(sections).value| == |sections|
              && forall i | 0 <= i < |sections| ::
                   ParseLevels(sections).value[i] == if Classify(sections[i]).Folder? then Literal(sections[i]) else Wildcard
  {
    if sections != [] {
      var rest := sections[1..];
      LevelsExactly(rest);
      assert forall i | 1 <= i < |sections| :: sections[i] == rest[i - 1];
      if LevelSection(sections[0]) && ParseLevels(rest).Ok? {
        forall i | 0 <= i < |sections| ensures LevelSection(sections[i]) {
          if i > 0 { assert LevelSection(rest[i - 1]); }
        }
      }
      if forall i | 0 <= i < |sections| :: LevelSection(sections[i]) {
        forall i | 0 <= i < |rest| ensures LevelSection(rest[i]) { assert LevelSection(sections[i + 1]); }
      }
    }
  }

  // ---- Which templates are accepted ----

  /** One section names the platform; before it only folders, none of which does; after it
      no second platform or game, and the game macro closes the template. */
  predicate Declared(sections: seq<string>, slug: Option<string>, p: nat) {
    && p + 1 < |sections| && Classify(sections[|sections| - 1]) == Macro(GAME)
    && NamesPlatform(sections[p], slug)
    && (forall i | 0 <= i < p :: Classify(sections[i]).Folder? && !NamesPlatform(sections[i], slug))
    && (forall i | p < i < |sections| - 1 :: LevelSection(sections[i]))
    && "." !in sections && ".." !in sections
  }

  lemma AcceptedExactly(template: string, slug: Option<string>)
    ensures ParseStructure(template, slug).Ok? <==> exists p :: Declared(Sections(template), slug, p)
  {
    if ParseStructure(template, slug).Ok? {
      var p := ParsedIsDeclared(template, slug);
    }
    if p: nat :| Declared(Sections(template), slug, p) {
      ParseDeclared(template, slug, p);
    }
  }

  lemma ParsedIsDeclared(template: string, slug: Option<string>) returns (p: nat)
    requires ParseStructure(template, slug).Ok?
    ensures Declared(Sections(template), slug, p)
  {
    hide Sections, Classify, NamesPlatform, LevelSection, SplitAtPlatform, ParseLevels;
    var sections := Sections(template);
    var inner := sections[..|sections| - 1];
    p := SplitMeans([], inner, slug);
    SplitFinds([], inner, p, slug);
    LevelsExactly(inner[p + 1..]);
    hide ParseStructure, CheckedSections;
    forall i | p < i < |sections| - 1 ensures LevelSection(sections[i]) {
      assert inner[p + 1..][i - p - 1] == sections[i];
    }
    forall i | 0 <= i < p ensures Classify(sections[i]).Folder? && !NamesPlatform(sections[i], slug) {
      assert inner[i] == sections[i];
    }
  }

  /** What a declared template parses to. */
  lemma ParseDeclared(template: string, slug: Option<string>, p: nat)
    requires Declared(Sections(template), slug, p)
    ensures var sections, r := Sections(template), ParseStructure(template, slug);
            && r.Ok? && r.value.platformDir == sections[..p] && |r.value.levels| == |sections| - p - 2
            && forall i | 0 <= i < |r.value.levels| ::
                 r.value.levels[i] == if Classify(sections[p + 1 + i]).Folder? then Literal(sections[p + 1 + i]) else Wildcard
  {
    hide Sections, Classify, NamesPlatform, LevelSection, SplitAtPlatform, ParseLevels;
    var sections := Sections(template);
    var inner := sections[..|sections| - 1];
    SplitFinds([], inner, p, slug);
    assert [] + inner[..p] == sections[..p];
    LevelsExactly(inner[p + 1..]);
    var tail := inner[p + 1..];
    assert forall i | 0 <= i < |tail| :: tail[i] == sections[p + 1 + i];
  }

  predicate Usable(section: string) { !Classify(section).Bad? && section != "." && section != ".." }

  /** Without a platform's own name: exactly one `{platform}`, the only `{game}` last, only
      folders before it, and no malformed, empty, reserved or dot section anywhere. */
  predicate DeclaredMacros(sections: seq<string>) {
    && sections != [] && Classify(sections[|sections| - 1]) == Macro(GAME)
    && (forall i | 0 <= i < |sections| - 1 :: Classify(sections[i]) != Macro(GAME))
    && (forall i | 0 <= i < |sections| :: Usable(sections[i]))
    && exists p: nat | p < |sections| :: OnlyPlatform(sections, p)
  }

  predicate OnlyPlatform(sections: seq<string>, p: nat) {
    && p < |sections| && Classify(sections[p]) == Macro(PLATFORM)
    && (forall i | 0 <= i < |sections| && i != p :: Classify(sections[i]) != Macro(PLATFORM))
    && (forall i | 0 <= i < p :: Classify(sections[i]).Folder?)
  }

  lemma AcceptedWithoutSlug(template: string)
    ensures ParseStructure(template, None).Ok? <==> DeclaredMacros(Sections(template))
  {
    AcceptedExactly(template, None);
    hide ParseStructure, Sections, Classify;
    var sections := Sections(template);
    if DeclaredMacros(sections) {
      var p: nat :| OnlyPlatform(sections, p);
      MacrosDeclare(sections, p);
    }
    if p: nat :| Declared(sections, None, p) {
      DeclaredHasMacros(sections, p);
    }
  }

  lemma MacrosDeclare(sections: seq<string>, p: nat)
    requires DeclaredMacros(sections) && OnlyPlatform(sections, p)
    ensures Declared(sections, None, p)
  {
    hide Classify;
    assert p != |sections| - 1;
    forall i | p < i < |sections| - 1 ensures LevelSection(sections[i]) { assert Usable(sections[i]); }
    forall k | 0 <= k < |sections| ensures sections[k] != "." && sections[k] != ".." { assert Usable(sections[k]); }
  }

  lemma DeclaredHasMacros(sections: seq<string>, p: nat)
    requires Declared(sections, None, p)
    ensures DeclaredMacros(sections)
  {
    hide Classify;
    forall i | 0 <= i < |sections|
      ensures Usable(sections[i])
      ensures i != p ==> Classify(sections[i]) != Macro(PLATFORM)
      ensures i < |sections| - 1 ==> Classify(sections[i]) != Macro(GAME)
    {
      if p < i < |sections| - 1 { assert LevelSection(sections[i]); }
    }
    assert OnlyPlatform(sections, p);
  }

  // ---- Firmware templates ----

  lemma {:induction false} SubdirExactly(sections: seq<string>)
    ensures ParseSubdir(sections).Ok? <==> forall i | 0 <= i < |sections| :: Classify(sections[i]).Folder?
    ensures ParseSubdir(sections).Ok? ==> ParseSubdir(sections).value == sections
  {
    hide Classify;
    if sections != [] {
      var rest := sections[1..];
      SubdirExactly(rest);
      assert sections == [sections[0]] + rest;
      assert forall i | 1 <= i < |sections| :: sections[i] == rest[i - 1];
      if forall i | 0 <= i < |sections| :: Classify(sections[i]).Folder? {
        forall i | 0 <= i < |rest| ensures Classify(rest[i]).Folder? { assert Classify(sections[i + 1]).Folder?; }
      }
    }
  }

  /** One `{platform}`, and folder names everywhere else. */
  predicate FoldersAround(sections: seq<string>, p: nat) {
    && p < |sections| && Classify(sections[p]) == Macro(PLATFORM)
    && (forall i | 0 <= i < |sections| && i != p :: Classify(sections[i]).Folder?)
    && "." !in sections && ".." !in sections
  }

  lemma FirmwareDeclared(template: string, p: nat)
    requires FoldersAround(Sections(template), p)
    ensures ParseFirmware(template) == Ok(Firmware(Sections(template)[..p], Sections(template)[p + 1..]))
  {
    hide Sections, Classify, SplitAtPlatform, ParseSubdir;
    var sections := Sections(template);
    SplitFinds([], sections, p, None);
    assert [] + sections[..p] == sections[..p];
    SubdirExactly(sections[p + 1..]);
    var tail := sections[p + 1..];
    assert forall i | 0 <= i < |tail| :: tail[i] == sections[p + 1 + i];
  }

  lemma FirmwareAcceptedExactly(template: string)
    ensures ParseFirmware(template).Ok? <==> exists p: nat :: FoldersAround(Sections(template), p)
  {
    if ParseFirmware(template).Ok? {
      hide Sections, Classify, ParseSubdir, SplitAtPlatform;
      var sections := Sections(template);
      var p := SplitMeans([], sections, None);
      SplitFinds([], sections, p, None);
      var tail := sections[p + 1..];
      SubdirExactly(tail);
      assert forall i | p < i < |sections| :: sections[i] == tail[i - p - 1];
      assert FoldersAround(sections, p);
    }
    if p: nat :| FoldersAround(Sections(template), p) {
      FirmwareDeclared(template, p);
    }
  }

  // ---- The round trip ----

  lemma PrintedSections(t: Structure, platform: string)
    requires WellFormed(t) && Plain(platform) && platform != "." && platform != ".."
    ensures var sections := PrintSections(t, platform);
            Sections(Print(t, platform)) == sections && "." !in sections && ".." !in sections
  {
    var sections := PrintSections(t, platform);
    var d := |t.platformDir|;
    forall i | 0 <= i < |sections| ensures Plain(sections[i]) && sections[i] != "." && sections[i] != ".." {
      if i < d {
        assert sections[i] == t.platformDir[i] && FolderName(t.platformDir[i]);
      } else if d < i < |sections| - 1 {
        assert sections[i] == PrintLevel(t.levels[i - d - 1]) && t.levels[i - d - 1] in t.levels;
      }
    }
    SectionsOfJoin(sections);
  }

  /** A folder above the platform's that carries its name is taken for it. */
  lemma NamedAbove(t: Structure, platform: string, slug: string)
    requires WellFormed(t) && Plain(platform) && platform != "." && platform != ".." && slug in t.platformDir
    ensures ParseStructure(Print(t, platform), Some(slug)) != Ok(t)
  {
    PrintedSections(t, platform);
    var template, sections := Print(t, platform), PrintSections(t, platform);
    var i :| 0 <= i < |t.platformDir| && t.platformDir[i] == slug;
    assert sections[i] == slug && FolderName(t.platformDir[i]);
    forall q: nat | Declared(sections, Some(slug), q) ensures q <= i {}
    AcceptedExactly(template, Some(slug));
    if ParseStructure(template, Some(slug)).Ok? {
      var q: nat :| Declared(sections, Some(slug), q);
      ParseDeclared(template, Some(slug), q);
    }
  }

  /** Printing a layout and parsing it gives the layout back, for every layout; under a
      platform's own name, exactly when no folder above the platform's carries that name. */
  lemma RoundTrip(t: Structure, slug: Option<string>)
    requires WellFormed(t)
    ensures ParseStructure(Print(t, "{platform}"), slug) == Ok(t) <==> slug.None? || slug.value !in t.platformDir
  {
    WildcardKind();
    if slug.Some? && slug.value in t.platformDir {
      NamedAbove(t, "{platform}", slug.value);
    } else {
      PrintedParses(t, "{platform}", slug);
    }
  }

  /** A platform that spells its folder by name gets the same layout back, under the same
      condition. */
  lemma RoundTripByName(t: Structure, slug: string)
    requires WellFormed(t) && FolderName(slug)
    ensures ParseStructure(Print(t, slug), Some(slug)) == Ok(t) <==> slug !in t.platformDir
  {
    if slug in t.platformDir {
      NamedAbove(t, slug, slug);
    } else {
      PrintedParses(t, slug, Some(slug));
    }
  }

  lemma PrintedLevels(t: Structure, platform: string)
    requires WellFormed(t)
    ensures var sections := PrintSections(t, platform);
            forall i | |t.platformDir| < i < |sections| - 1 ::
              sections[i] == PrintLevel(t.levels[i - |t.platformDir| - 1]) && LevelSection(sections[i])
  {
    WildcardKind();
    var sections := PrintSections(t, platform);
    forall i | |t.platformDir| < i < |sections| - 1
      ensures sections[i] == PrintLevel(t.levels[i - |t.platformDir| - 1]) && LevelSection(sections[i])
    {
      assert t.levels[i - |t.platformDir| - 1] in t.levels;
    }
  }

  lemma PrintedDeclared(t: Structure, platform: string, slug: Option<string>)
    requires WellFormed(t) && Plain(platform) && platform != "." && platform != ".." && NamesPlatform(platform, slug)
    requires slug.Some? ==> slug.value !in t.platformDir
    ensures Sections(Print(t, platform)) == PrintSections(t, platform)
    ensures Declared(PrintSections(t, platform), slug, |t.platformDir|)
  {
    WildcardKind();
    PrintedSections(t, platform);
    PrintedLevels(t, platform);
    var sections, p := PrintSections(t, platform), |t.platformDir|;
    assert sections[p] == platform && sections[|sections| - 1] == "{game}";
    hide Sections, Print, Plain, LevelSection;
    forall i | 0 <= i < p ensures Classify(sections[i]).Folder? && !NamesPlatform(sections[i], slug) {
      assert sections[i] == t.platformDir[i] && FolderName(t.platformDir[i]);
    }
    hide Classify, NamesPlatform, PrintSections;
  }

  lemma PrintedParses(t: Structure, platform: string, slug: Option<string>)
    requires WellFormed(t) && Plain(platform) && platform != "." && platform != ".." && NamesPlatform(platform, slug)
    requires slug.Some? ==> slug.value !in t.platformDir
    ensures ParseStructure(Print(t, platform), slug) == Ok(t)
  {
    PrintedDeclared(t, platform, slug);
    var sections, p := PrintSections(t, platform), |t.platformDir|;
    ParseDeclared(Print(t, platform), slug, p);
    assert sections[..p] == t.platformDir;
    hide ParseStructure, Sections, Print, Plain, Declared, NamesPlatform;
    var levels := ParseStructure(Print(t, platform), slug).value.levels;
    WildcardKind();
    forall i | 0 <= i < |levels| ensures levels[i] == t.levels[i] {
      assert sections[p + 1 + i] == PrintLevel(t.levels[i]) && t.levels[i] in t.levels;
    }
    assert levels == t.levels;
  }

  // ---- An accepted configuration ----

  lemma {:induction false} ParseAllMeans(templates: seq<string>, slug: Option<string>)
    ensures ParseAll(templates, slug).Ok? <==> forall i | 0 <= i < |templates| :: ParseStructure(templates[i], slug).Ok?
    ensures ParseAll(templates, slug).Ok? ==>
              && |ParseAll(templates, slug).value| == |templates|
              && forall i | 0 <= i < |templates| :: Ok(ParseAll(templates, slug).value[i]) == ParseStructure(templates[i], slug)
  {
    if templates != [] {
      ParseAllMeans(templates[1..], slug);
      assert forall i | 1 <= i < |templates| :: templates[i] == templates[1..][i - 1];
      if forall i | 0 <= i < |templates| :: ParseStructure(templates[i], slug).Ok? {
        assert ParseStructure(templates[0], slug).Ok?;
        forall i | 0 <= i < |templates[1..]| ensures ParseStructure(templates[1..][i], slug).Ok? {
          assert templates[1..][i] == templates[i + 1];
        }
      }
    }
  }

  lemma DefaultParses()
    ensures ParseStructure(DEFAULT_ROM_STRUCTURE, None) == Ok(Structure(["roms"], []))
  {
    var t := Structure(["roms"], []);
    assert PrintSections(t, "{platform}") == ["roms", "{platform}", "{game}"];
    assert ["roms", "{platform}", "{game}"][..2] == ["roms", "{platform}"];
    assert ["roms", "{platform}"][..1] == ["roms"];
    assert Join(["roms", "{platform}"]) == "roms/{platform}";
    assert Print(t, "{platform}") == DEFAULT_ROM_STRUCTURE;
    RoundTrip(t, None);
  }

  lemma FirmwarePrinted(name: string)
    requires FolderName(name)
    ensures ParseFirmware(name + "/" + "{platform}") == Ok(Firmware([name], []))
  {
    WildcardKind();
    var sections := [name, "{platform}"];
    assert sections[..1] == [name] && sections[2..] == [];
    assert Plain("{platform}");
    hide Classify, Plain;
    SectionsOfJoin(sections);
    assert Join(sections) == name + "/" + "{platform}";
    hide Join, Sections, ParseFirmware;
    FirmwareDeclared(name + "/" + "{platform}", 1);
  }

  lemma DefaultFirmwareParses()
    ensures ParseFirmware(DEFAULT_FIRMWARE_STRUCTURE).Ok?
  {
    assert FolderName("bios");
    hide FolderName, ParseFirmware;
    FirmwarePrinted("bios");
    assert "bios" + "/" + "{platform}" == DEFAULT_FIRMWARE_STRUCTURE;
  }

  lemma LowerIsStable(text: string)
    ensures Lower(Lower(text)) == Lower(text)
  {
  }

  lemma {:induction false} JoinAppend(front: seq<string>, back: seq<string>)
    requires front != [] && back != []
    ensures Join(front + back) == Join(front) + "/" + Join(back)
  {
    var all, last := front + back, back[|back| - 1];
    if |back| == 1 {
      assert all[..|all| - 1] == front;
    } else {
      var init := back[..|back| - 1];
      JoinAppend(front, init);
      assert all[..|all| - 1] == front + init && all[|all| - 1] == last;
      assert Join(all) == Join(front + init) + "/" + last && Join(back) == Join(init) + "/" + last;
      hide Join;
      assert Join(front) + "/" + Join(init) + "/" + last == Join(front) + "/" + (Join(init) + "/" + last);
    }
  }

  /** `path` is `folder` or something inside it. */
  predicate AtOrUnder(folder: string, path: string) { path == folder || folder + "/" <= path }

  lemma GamesAtOrUnder(t: Structure, slug: string)
    ensures AtOrUnder(t.PlatformPath(slug), t.GamesDir(slug))
  {
    var folder := t.platformDir + [slug];
    if Leading(t.levels) == [] {
      assert folder + [] == folder;
    } else {
      JoinAppend(folder, Leading(t.levels));
    }
  }

  /** Once a configuration is accepted, every folder name resolves to layouts, all of them
      place the platform folder where the default does, and each finds its games there. */
  lemma AcceptedIsSafe(config: map<string, Value>, folder: string)
    requires Accepted(config)
    ensures DefaultStructure(config).Ok? && FirmwareStructure(config).Ok? && PlatformStructure(config, folder).Ok?
    ensures PlatformStructure(config, folder).value != []
    ensures forall t | t in PlatformStructure(config, folder).value ::
              && t.platformDir == DefaultStructure(config).value.platformDir
              && AtOrUnder(t.PlatformPath(folder), t.GamesDir(folder))
  {
    var key := Lower(folder);
    LowerIsStable(folder);
    if FIRMWARE_KEY in config { assert ValidEntry(FIRMWARE_KEY, config[FIRMWARE_KEY]); } else { DefaultFirmwareParses(); }
    if DEFAULT_KEY in config { assert ValidEntry(DEFAULT_KEY, config[DEFAULT_KEY]); } else { DefaultParses(); }
    if key in config && !Reserved(key) {
      assert SameDir(config, key);
      ParseAllMeans(config[key].Templates(), Some(key));
    }
    forall t | t in PlatformStructure(config, folder).value
      ensures t.platformDir == DefaultStructure(config).value.platformDir
              && AtOrUnder(t.PlatformPath(folder), t.GamesDir(folder))
    {
      GamesAtOrUnder(t, folder);
    }
  }
}
