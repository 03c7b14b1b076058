/** Library layout templates: `/`-separated sections in which a braced one is a macro and a
    bare one a folder name. */
module Templates {
  import opened Common

  const PLATFORM := "platform"
  const GAME := "game"
  const LIBRARY := "library"
  const DEFAULT_KEY := "default"
  const FIRMWARE_KEY := "firmware"
  const DEFAULT_ROM_STRUCTURE := "roms/{platform}/{game}"
  const DEFAULT_FIRMWARE_STRUCTURE := "bios/{platform}"

  datatype Error =
    | EmptyTemplate | NotAFolderName | EmptyMacro | LibraryReserved | MalformedMacro
    | MustEndWithGame | NoPlatform | MacroBeforePlatform | RepeatedMacro | FirmwareMacro

  datatype Result<+T> = Ok(value: T) | Err(error: Error)

  /** A literal folder, or a wildcard that any folder matches. */
  datatype Level = Literal(name: string) | Wildcard

  datatype Structure = Structure(platformDir: seq<string>, levels: seq<Level>)
  {
    function PlatformPath(slug: string): string { Join(platformDir + [slug]) }

    /** The deepest folder known by name alone: the games lie at it or below it. */
    function GamesDir(slug: string): string { Join(platformDir + [slug] + Leading(levels)) }
  }

  datatype Firmware = Firmware(platformDir: seq<string>, subdir: seq<string>)

  function Leading(levels: seq<Level>): seq<string> {
    if levels == [] || levels[0].Wildcard? then [] else [levels[0].name] + Leading(levels[1..])
  }

  // ---- Text ----

  function Join(sections: seq<string>): string {
    if sections == [] then ""
    else if |sections| == 1 then sections[0]
    else Join(sections[..|sections| - 1]) + "/" + sections[|sections| - 1]
  }

  function Split(text: string): (parts: seq<string>)
    ensures parts != []
  {
    if text == "" then [""]
    else
      var parts, last := Split(text[..|text| - 1]), text[|text| - 1];
      if last == '/' then parts + [""] else parts[..|parts| - 1] + [parts[|parts| - 1] + [last]]
  }

  function NonEmpty(parts: seq<string>): seq<string> {
    if parts == [] then []
    else NonEmpty(parts[..|parts| - 1]) + (if parts[|parts| - 1] == "" then [] else [parts[|parts| - 1]])
  }

  predicate IsSpace(c: char) { c == ' ' || '\t' <= c <= '\r' || '\U{1C}' <= c <= '\U{1F}' }

  function Strip(text: string): string {
    if text == "" then ""
    else if IsSpace(text[0]) then Strip(text[1..])
    else if IsSpace(text[|text| - 1]) then Strip(text[..|text| - 1])
    else text
  }

  function Sections(template: string): seq<string> { NonEmpty(Split(template)) }

  // ---- One section ----

  datatype Kind = Folder | Macro(name: string) | Bad(error: Error)

  function Classify(section: string): Kind {
    if |section| >= 2 && section[0] == '{' && section[|section| - 1] == '}' then
      var name := Strip(section[1..|section| - 1]);
      if name == "" then Bad(EmptyMacro) else if name == LIBRARY then Bad(LibraryReserved) else Macro(name)
    else if '{' in section || '}' in section then Bad(MalformedMacro)
    else Folder
  }

  predicate NamesPlatform(section: string, slug: Option<string>) {
    Classify(section) == Macro(PLATFORM) || (Classify(section).Folder? && slug == Some(section))
  }

  // ---- Parsing ----

  /** The sections around the first one that names the platform. */
  function SplitAtPlatform(before: seq<string>, rest: seq<string>, slug: Option<string>): Result<(seq<string>, seq<string>)>
    decreases |rest|
  {
    if rest == [] then Err(NoPlatform)
    else if Classify(rest[0]).Bad? then Err(Classify(rest[0]).error)
    else if NamesPlatform(rest[0], slug) then
      if exists i :: 0 <= i < |before| && !Classify(before[i]).Folder? then Err(MacroBeforePlatform)
      else Ok((before, rest[1..]))
    else SplitAtPlatform(before + [rest[0]], rest[1..], slug)
  }

  function ParseLevels(sections: seq<string>): Result<seq<Level>> {
    if sections == [] then Ok([])
    else match Classify(sections[0])
         case Bad(e) => Err(e)
         case Macro(name) =>
           if name == PLATFORM || name == GAME then Err(RepeatedMacro)
           else (match ParseLevels(sections[1..]) case Err(e) => Err(e) case Ok(levels) => Ok([Wildcard] + levels))
         case Folder =>
           (match ParseLevels(sections[1..]) case Err(e) => Err(e) case Ok(levels) => Ok([Literal(sections[0])] + levels))
  }

  function CheckedSections(template: string): Result<seq<string>> {
    var sections := Sections(template);
    if sections == [] then Err(EmptyTemplate)
    else if "." in sections || ".." in sections then Err(NotAFolderName)
    else Ok(sections)
  }

  function ParseStructure(template: string, slug: Option<string>): Result<Structure> {
    match CheckedSections(template)
    case Err(e) => Err(e)
    case Ok(sections) =>
      var last := if sections != [] then Classify(sections[|sections| - 1]) else Folder;
      if last.Bad? then Err(last.error)
      else if last != Macro(GAME) then Err(MustEndWithGame)
      else match SplitAtPlatform([], sections[..|sections| - 1], slug)
           case Err(e) => Err(e)
           case Ok((before, after)) =>
             match ParseLevels(after)
             case Err(e) => Err(e)
             case Ok(levels) => Ok(Structure(before, levels))
  }

  function ParseFirmware(template: string): Result<Firmware> {
    match CheckedSections(template)
    case Err(e) => Err(e)
    case Ok(sections) =>
      match SplitAtPlatform([], sections, None)
      case Err(e) => Err(e)
      case Ok((before, after)) =>
        match ParseSubdir(after)
        case Err(e) => Err(e)
        case Ok(subdir) => Ok(Firmware(before, subdir))
  }

  function ParseSubdir(sections: seq<string>): Result<seq<string>> {
    if sections == [] then Ok([])
    else match Classify(sections[0])
         case Bad(e) => Err(e)
         case Macro(_) => Err(FirmwareMacro)
         case Folder =>
           (match ParseSubdir(sections[1..]) case Err(e) => Err(e) case Ok(rest) => Ok([sections[0]] + rest))
  }

  // ---- The configured layouts ----

  datatype Value = One(template: string) | Many(templates: seq<string>)
  {
    function Templates(): seq<string> { if One? then [template] else templates }

    /** An empty string or list counts as no override. */
    predicate Blank() { if One? then template == "" else templates == [] }
  }

  predicate Reserved(key: string) { key == DEFAULT_KEY || key == FIRMWARE_KEY }

  function LowerChar(c: char): char { if 'A' <= c <= 'Z' then c - 'A' + 'a' else c }

  function Lower(text: string): string { seq(|text|, i requires 0 <= i < |text| => LowerChar(text[i])) }

  function ParseAll(templates: seq<string>, slug: Option<string>): Result<seq<Structure>> {
    if templates == [] then Ok([])
    else match ParseStructure(templates[0], slug)
         case Err(e) => Err(e)
         case Ok(first) =>
           (match ParseAll(templates[1..], slug) case Err(e) => Err(e) case Ok(rest) => Ok([first] + rest))
  }

  function DefaultPattern(config: map<string, Value>): string {
    if DEFAULT_KEY in config && config[DEFAULT_KEY].One? then config[DEFAULT_KEY].template else DEFAULT_ROM_STRUCTURE
  }

  function DefaultStructure(config: map<string, Value>): Result<Structure> {
    ParseStructure(DefaultPattern(config), None)
  }

  function FirmwareStructure(config: map<string, Value>): Result<Firmware> {
    ParseFirmware(if FIRMWARE_KEY in config && config[FIRMWARE_KEY].One? then config[FIRMWARE_KEY].template
                  else DEFAULT_FIRMWARE_STRUCTURE)
  }

  /** A platform's layouts: its own override, else the default. */
  function PlatformStructure(config: map<string, Value>, slug: string): Result<seq<Structure>> {
    var key := Lower(slug);
    if Reserved(key) || key !in config || config[key].Blank() then
      (match DefaultStructure(config) case Err(e) => Err(e) case Ok(structure) => Ok([structure]))
    else ParseAll(config[key].Templates(), Some(key))
  }

  // ---- Validation ----

  predicate ValidEntry(key: string, value: Value) {
    if key == FIRMWARE_KEY then value.One? && ParseFirmware(value.template).Ok?
    else if key == DEFAULT_KEY then value.One? && ParseStructure(value.template, None).Ok?
    else ParseAll(value.Templates(), Some(key)).Ok?
  }

  /** Every override places its platform folder where the default does. */
  predicate SameDir(config: map<string, Value>, key: string) {
    && DefaultStructure(config).Ok? && PlatformStructure(config, key).Ok?
    && forall t | t in PlatformStructure(config, key).value :: t.platformDir == DefaultStructure(config).value.platformDir
  }

  predicate Accepted(config: map<string, Value>) {
    && (forall key | key in config :: ValidEntry(key, config[key]))
    && (forall key | key in config && !Reserved(key) :: SameDir(config, key))
  }

  /** The `filesystem.structure` entries in file order; a later key that lowercases to an
      earlier one replaces it. */
  function Lowered(entries: seq<(string, Value)>): map<string, Value> {
    if entries == [] then map[]
    else
      var (key, value) := entries[|entries| - 1];
      Lowered(entries[..|entries| - 1])[Lower(key) := value]
  }

  class StructureConfig {
    var templates: map<string, Value>

    /** Lowercase the keys, then check every entry and that all layouts agree; a refusal
        stops the program. */
    method Validate(entries: seq<(string, Value)>) returns (ok: bool)
      modifies this
      ensures templates == Lowered(entries) && (ok <==> Accepted(templates))
    {
      templates := map[];
      for i := 0 to |entries|
        invariant templates == Lowered(entries[..i])
      {
        assert entries[..i + 1][..i] == entries[..i];
        templates := templates[Lower(entries[i].0) := entries[i].1];
      }
      assert entries[..|entries|] == entries;

      var todo := templates.Keys;
      while todo != {}
        invariant todo <= templates.Keys
        invariant forall key | key in templates && key !in todo :: ValidEntry(key, templates[key])
        decreases |todo|
      {
        var key :| key in todo;
        if !ValidEntry(key, templates[key]) {
          return false;
        }
        todo := todo - {key};
      }

      todo := templates.Keys;
      while todo != {}
        invariant todo <= templates.Keys
        invariant forall key | key in templates && key !in todo && !Reserved(key) :: SameDir(templates, key)
        decreases |todo|
      {
        var key :| key in todo;
        if !Reserved(key) && !SameDir(templates, key) {
          return false;
        }
        todo := todo - {key};
      }
      ok := true;
    }
  }
}
