/** Which layouts a platform has, and which configurations are accepted, in terms of the
    templates written. */
module PlatformLayouts {
  import opened Common
  import opened Templates
  import opened TemplateProofs

  /** Folders before the platform's section, and below it a level for each section but the game. */
  predicate ReadAs(t: Structure, sections: seq<string>, p: nat) {
    && p + 1 < |sections| && t.platformDir == sections[..p] && |t.levels| == |sections| - p - 2
    && forall i | 0 <= i < |t.levels| ::
         t.levels[i] == if Classify(sections[p + 1 + i]).Folder? then Literal(sections[p + 1 + i]) else Wildcard
  }

  /** The layout a template declares under a platform's name. */
  ghost predicate IsReading(t: Structure, template: string, slug: Option<string>) {
    exists p: nat :: Declared(Sections(template), slug, p) && ReadAs(t, Sections(template), p)
  }

  lemma ParsedIsReading(template: string, slug: Option<string>)
    requires ParseStructure(template, slug).Ok?
    ensures IsReading(ParseStructure(template, slug).value, template, slug)
  {
    hide Sections, Classify, ParseStructure, Declared;
    var p := ParsedIsDeclared(template, slug);
    ParseDeclared(template, slug, p);
    assert p + 1 < |Sections(template)| by { DeclaredInside(Sections(template), slug, p); }
    assert ReadAs(ParseStructure(template, slug).value, Sections(template), p);
  }

  lemma DeclaredInside(sections: seq<string>, slug: Option<string>, p: nat)
    requires Declared(sections, slug, p)
    ensures p + 1 < |sections|
  {
  }

  /** In an accepted configuration a platform with an entry of its own has one layout for each of
      its templates, in order, read under the platform's name. */
  lemma OwnLayouts(config: map<string, Value>, folder: string)
    requires Accepted(config)
    requires var key := Lower(folder);
             key in config && key != "default" && key != "firmware"
             && config[key] != One("") && config[key] != Many([])
    ensures var key := Lower(folder);
            var templates := if config[key].One? then [config[key].template] else config[key].templates;
            var layouts := PlatformStructure(config, folder);
            && layouts.Ok? && |layouts.value| == |templates|
            && forall i | 0 <= i < |templates| :: IsReading(layouts.value[i], templates[i], Some(key))
  {
    var key := Lower(folder);
    var templates := config[key].Templates();
    OwnTemplates(config, folder);
    hide IsReading, PlatformStructure, ParseStructure, Lower, Accepted;
    var layouts := PlatformStructure(config, folder);
    forall i | 0 <= i < |templates| ensures IsReading(layouts.value[i], templates[i], Some(key)) {
      assert ParseStructure(templates[i], Some(key)) == Ok(layouts.value[i]);
      ParsedIsReading(templates[i], Some(key));
    }
  }

  lemma OwnTemplates(config: map<string, Value>, folder: string)
    requires Accepted(config)
    requires var key := Lower(folder); key in config && !Reserved(key) && !config[key].Blank()
    ensures var templates, layouts := config[Lower(folder)].Templates(), PlatformStructure(config, folder);
            && layouts.Ok? && |layouts.value| == |templates|
            && forall i | 0 <= i < |templates| :: ParseStructure(templates[i], Some(Lower(folder))) == Ok(layouts.value[i])
  {
    var key := Lower(folder);
    assert ValidEntry(key, config[key]);
    hide Lower, ParseAll, ParseStructure, DefaultStructure;
    ParseAllMeans(config[key].Templates(), Some(key));
  }

  /** Any other platform has the default layout and no other. */
  lemma DefaultLayout(config: map<string, Value>, folder: string)
    requires Accepted(config)
    requires var key := Lower(folder);
             key !in config || key == "default" || key == "firmware" || config[key] == One("") || config[key] == Many([])
    ensures if "default" in config then
              && config["default"].One? && ParseStructure(config["default"].template, None).Ok?
              && PlatformStructure(config, folder) == Ok([ParseStructure(config["default"].template, None).value])
            else PlatformStructure(config, folder) == Ok([Structure(["roms"], [])])
  {
    if DEFAULT_KEY in config { assert ValidEntry(DEFAULT_KEY, config[DEFAULT_KEY]); } else { DefaultParses(); }
    hide ParseStructure, ParseAll;
  }

  /** What an entry other than the two reserved ones must come to: every template parses under
      the entry's name and has the platform's folder where the default has it. */
  predicate Agrees(key: string, templates: seq<string>, dir: seq<string>) {
    forall i | 0 <= i < |templates| ::
      ParseStructure(templates[i], Some(key)).Ok? && ParseStructure(templates[i], Some(key)).value.platformDir == dir
  }

  predicate ReservedFit(config: map<string, Value>) {
    && ("default" in config ==> config["default"].One? && ParseStructure(config["default"].template, None).Ok?)
    && ("firmware" in config ==> config["firmware"].One? && ParseFirmware(config["firmware"].template).Ok?)
  }

  function DefaultDir(config: map<string, Value>): seq<string>
    requires ReservedFit(config)
  {
    if "default" in config then ParseStructure(config["default"].template, None).value.platformDir else ["roms"]
  }

  /** A configuration with lowercased keys is accepted if and only if its reserved entries parse
      and every other entry agrees with the default on where platforms are. An empty string is
      no override, yet it is refused. */
  lemma ConfigurationAcceptedExactly(config: map<string, Value>)
    requires forall key | key in config :: Lower(key) == key
    ensures Accepted(config) <==>
            && ReservedFit(config)
            && forall key | key in config && key != "default" && key != "firmware" ::
                 Agrees(key, if config[key].One? then [config[key].template] else config[key].templates, DefaultDir(config))
  {
    if ReservedFit(config) {
      DefaultIsRead(config);
      forall key | key in config && !Reserved(key)
        ensures ValidEntry(key, config[key]) && SameDir(config, key) <==> Agrees(key, config[key].Templates(), DefaultDir(config))
      {
        EntryAgreesExactly(config, key);
      }
    }
    hide ValidEntry, SameDir, Agrees, ParseStructure, ParseFirmware;
    assert Accepted(config) ==> ReservedFit(config) by { ReservedEntries(config); }
    if ReservedFit(config) { ReservedEntries(config); }
  }

  lemma ReservedEntries(config: map<string, Value>)
    ensures Accepted(config) ==> ReservedFit(config)
    ensures ReservedFit(config) ==> forall key | key in config && Reserved(key) :: ValidEntry(key, config[key])
  {
    if Accepted(config) {
      if DEFAULT_KEY in config { assert ValidEntry(DEFAULT_KEY, config[DEFAULT_KEY]); }
      if FIRMWARE_KEY in config { assert ValidEntry(FIRMWARE_KEY, config[FIRMWARE_KEY]); }
    }
    hide ParseStructure, ParseFirmware;
  }

  lemma DefaultIsRead(config: map<string, Value>)
    requires ReservedFit(config)
    ensures DefaultStructure(config).Ok? && DefaultStructure(config).value.platformDir == DefaultDir(config)
  {
    DefaultParses();
    hide ParseStructure;
  }

  lemma EntryAgreesExactly(config: map<string, Value>, key: string)
    requires ReservedFit(config) && key in config && !Reserved(key) && Lower(key) == key
    ensures ValidEntry(key, config[key]) && SameDir(config, key) <==> Agrees(key, config[key].Templates(), DefaultDir(config))
  {
    hide ParseAll, ParseStructure, DefaultStructure, Lower, DefaultDir, ReservedFit, ParseFirmware;
    var templates := config[key].Templates();
    DefaultIsRead(config);
    ParseAllMeans(templates, Some(key));
    if config[key].Blank() {
      EmptyIsRefused(Some(key));
      assert templates == [] || templates == [""];
    } else {
      LayoutsAgree(config, key);
    }
  }

  lemma LayoutsAgree(config: map<string, Value>, key: string)
    requires DefaultStructure(config).Ok? && key in config && !Reserved(key) && Lower(key) == key && !config[key].Blank()
    ensures ValidEntry(key, config[key]) && SameDir(config, key) <==>
            Agrees(key, config[key].Templates(), DefaultStructure(config).value.platformDir)
  {
    hide ParseAll, ParseStructure, DefaultStructure, Lower;
    var templates := config[key].Templates();
    ParseAllMeans(templates, Some(key));
    var layouts := ParseAll(templates, Some(key));
    assert PlatformStructure(config, key) == layouts;
    if layouts.Ok? {
      assert forall i | 0 <= i < |templates| :: layouts.value[i] == ParseStructure(templates[i], Some(key)).value;
      assert forall t | t in layouts.value :: exists i :: 0 <= i < |templates| && layouts.value[i] == t;
      assert forall i | 0 <= i < |templates| :: layouts.value[i] in layouts.value;
    }
  }

  lemma EmptyIsRefused(slug: Option<string>)
    ensures ParseStructure("", slug) == Err(EmptyTemplate)
  {
    assert Split("") == [""] && [""][..0] == [];
    assert NonEmpty([""]) == NonEmpty([]) + [] == [];
  }

  /** Firmware has the layout written for it, else its folder under `bios`. */
  lemma FirmwareLayout(config: map<string, Value>)
    requires Accepted(config)
    ensures if "firmware" in config then
              config["firmware"].One? && FirmwareStructure(config) == ParseFirmware(config["firmware"].template)
            else FirmwareStructure(config) == Ok(Firmware(["bios"], []))
  {
    if FIRMWARE_KEY in config {
      assert ValidEntry(FIRMWARE_KEY, config[FIRMWARE_KEY]);
    } else {
      assert FolderName("bios") by { assert '/' !in "bios" && '{' !in "bios" && '}' !in "bios"; }
      FirmwarePrinted("bios");
      assert "bios" + "/" + "{platform}" == DEFAULT_FIRMWARE_STRUCTURE;
    }
    hide ParseFirmware, ParseStructure;
  }

  // ---- Where games start ----

  /** The games' folder is the platform's, followed by the named levels above the first wildcard. */
  lemma GamesStartExactly(t: Structure, slug: string, n: nat)
    requires n <= |t.levels| && (forall i | 0 <= i < n :: t.levels[i].Literal?) && (n < |t.levels| ==> t.levels[n].Wildcard?)
    ensures t.GamesDir(slug) == Join(t.platformDir + [slug] + seq(n, i requires 0 <= i < n => t.levels[i].name))
    ensures t.PlatformPath(slug) == Join(t.platformDir + [slug])
  {
    LeadingMeans(t.levels, n);
  }

  lemma {:induction false} LeadingMeans(levels: seq<Level>, n: nat)
    requires n <= |levels| && (forall i | 0 <= i < n :: levels[i].Literal?) && (n < |levels| ==> levels[n].Wildcard?)
    ensures Leading(levels) == seq(n, i requires 0 <= i < n => levels[i].name)
    decreases n
  {
    if n > 0 {
      LeadingMeans(levels[1..], n - 1);
      assert Leading(levels) == [levels[0].name] + Leading(levels[1..]);
    }
  }

  // ---- What a section says ----

  /** White space is the blank, the controls from tab to carriage return, and the four separators. */
  lemma SpaceMeans(c: char)
    ensures IsSpace(c) <==> c in {' ', '\t', '\n', '\U{B}', '\U{C}', '\r', '\U{1C}', '\U{1D}', '\U{1E}', '\U{1F}'}
  {
  }

  predicate Spaces(text: string) { forall i | 0 <= i < |text| :: IsSpace(text[i]) }

  predicate Trimmed(text: string) { text == "" || (!IsSpace(text[0]) && !IsSpace(text[|text| - 1])) }

  /** Stripping takes the white space off both ends and nothing else. */
  lemma {:induction false} StripMeans(text: string) returns (i: nat, j: nat)
    ensures i <= j <= |text| && Strip(text) == text[i..j] && Trimmed(Strip(text))
    ensures Spaces(text[..i]) && Spaces(text[j..])
    decreases |text|
  {
    hide IsSpace;
    if text == "" {
      i, j := 0, 0;
    } else if IsSpace(text[0]) {
      var k, l := StripMeans(text[1..]);
      i, j := k + 1, l + 1;
      assert text[1..][k..l] == text[i..j] && text[1..][l..] == text[j..];
      assert text[..i] == [text[0]] + text[1..][..k];
      SpacesCons(text[0], text[1..][..k]);
    } else if IsSpace(text[|text| - 1]) {
      var front := text[..|text| - 1];
      i, j := StripMeans(front);
      assert front[i..j] == text[i..j] && front[..i] == text[..i];
      assert text[j..] == front[j..] + [text[|text| - 1]];
      SpacesSnoc(front[j..], text[|text| - 1]);
    } else {
      i, j := 0, |text|;
      assert text[0..|text|] == text;
    }
  }

  lemma SpacesSnoc(text: string, c: char)
    requires Spaces(text) && IsSpace(c)
    ensures Spaces(text + [c])
  {
    hide IsSpace;
  }

  lemma SpacesCons(c: char, text: string)
    requires Spaces(text) && IsSpace(c)
    ensures Spaces([c] + text)
  {
    hide IsSpace;
  }

  /** A section is a folder name exactly when it has no brace, and a macro exactly when one brace
      opens it and one closes it around a name that is neither blank nor reserved. */
  lemma SectionMeans(section: string)
    ensures Classify(section).Folder? <==> '{' !in section && '}' !in section
    ensures Classify(section).Macro? <==> Braced(section) && Strip(Inner(section)) != "" && Strip(Inner(section)) != "library"
    ensures Classify(section).Macro? ==> Classify(section).name == Strip(Inner(section))
  {
    if Braced(section) { assert section[0] in section; }
  }

  predicate Braced(section: string) { |section| >= 2 && section[0] == '{' && section[|section| - 1] == '}' }

  function Inner(section: string): string { if |section| >= 2 then section[1..|section| - 1] else "" }

  // ---- Entries that lowercase alike ----

  /** Capitals lowercase to their letters, and nothing else changes. */
  lemma CapitalsAreLowered(c: char)
    ensures var capitals, letters := "ABCDEFGHIJKLMNOPQRSTUVWXYZ", "abcdefghijklmnopqrstuvwxyz";
            && (forall i | 0 <= i < 26 && capitals[i] == c :: LowerChar(c) == letters[i])
            && (c !in capitals ==> LowerChar(c) == c)
  {
    var capitals, letters := "ABCDEFGHIJKLMNOPQRSTUVWXYZ", "abcdefghijklmnopqrstuvwxyz";
    assert forall i | 0 <= i < 26 :: capitals[i] == 'A' + i as char && letters[i] == 'a' + i as char;
    if 'A' <= c <= 'Z' {
      assert capitals[(c - 'A') as int] == c;
    }
  }

  /** A name is among the lowered keys exactly when some key lowercases to it. */
  lemma {:induction false} LoweredHas(entries: seq<(string, Value)>, name: string)
    ensures name in Lowered(entries) <==> exists i :: 0 <= i < |entries| && Lower(entries[i].0) == name
  {
    hide Lower;
    if entries != [] {
      var front, last := entries[..|entries| - 1], |entries| - 1;
      LoweredHas(front, name);
      assert name in Lowered(entries) <==> name in Lowered(front) || Lower(entries[last].0) == name;
      if i :| 0 <= i < |entries| && Lower(entries[i].0) == name {
        if i < last { assert Lower(front[i].0) == name; }
      }
      if i :| 0 <= i < |front| && Lower(front[i].0) == name { assert Lower(entries[i].0) == name; }
    }
  }

  /** Of the entries whose keys lowercase to a name, the last in file order gives its value. */
  lemma {:induction false} LastAlikeWins(entries: seq<(string, Value)>, i: nat)
    requires i < |entries| && forall j | i < j < |entries| :: Lower(entries[j].0) != Lower(entries[i].0)
    ensures Lower(entries[i].0) in Lowered(entries) && Lowered(entries)[Lower(entries[i].0)] == entries[i].1
    decreases |entries|
  {
    hide Lower;
    if i < |entries| - 1 { LastAlikeWins(entries[..|entries| - 1], i); }
  }

  /** Every key of a lowered configuration is in lower case. */
  lemma LoweredIsLow(entries: seq<(string, Value)>)
    ensures forall key | key in Lowered(entries) :: Lower(key) == key
  {
    forall key | key in Lowered(entries) ensures Lower(key) == key {
      LoweredHas(entries, key);
      var i :| 0 <= i < |entries| && Lower(entries[i].0) == key;
      LowerIsStable(entries[i].0);
    }
  }

  /** The same, for the entries as they stand in the file. */
  lemma EntriesAcceptedExactly(entries: seq<(string, Value)>)
    ensures var config := Lowered(entries);
            Accepted(config) <==>
            && ReservedFit(config)
            && forall key | key in config && key != "default" && key != "firmware" ::
                 Agrees(key, if config[key].One? then [config[key].template] else config[key].templates, DefaultDir(config))
  {
    LoweredIsLow(entries);
    ConfigurationAcceptedExactly(Lowered(entries));
    hide Lowered, Accepted, ReservedFit, Agrees, DefaultDir;
  }
}
