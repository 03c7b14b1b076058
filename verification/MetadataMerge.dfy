/** How one scan merges what the metadata providers answered into a ROM's attributes:
    reset, scene lock, and the reversed overwrite loops. */
module MetadataMerge {
  import opened Common

  type Source = string
  type Field = string

  /** A provider's answer for a field, or a stored attribute: the empty string is falsy. */
  type Value = string

  type Attrs = map<Field, Value>

  const SCENE_METADATA_SOURCES: set<Source> := {"demozoo", "pouet", "csdb"}

  const URL_COVER := "url_cover"
  const ARTWORK: seq<Field> := ["url_cover", "url_screenshots", "url_manual"]
  const CLEARED: seq<Field> :=
    ["url_cover", "url_screenshots", "url_manual", "path_cover_s", "path_cover_l", "path_screenshots",
     "path_manual", "locked_fields"]

  /** What a scan copies from the stored row, unless it starts over. */
  const CARRIED: set<Field> :=
    {"name", "name_sort_key", "slug", "summary",
     "url_cover", "url_screenshots", "url_manual", "path_cover_s", "path_cover_l", "path_screenshots",
     "path_manual", "locked_fields",
     "igdb_id", "moby_id", "ss_id", "sgdb_id", "ra_id", "launchbox_id", "hasheous_id", "tgdb_id", "gamelist_id",
     "flashpoint_id", "hltb_id", "demozoo_id", "pouet_id", "csdb_id", "steam_id", "libretro_id",
     "igdb_metadata", "moby_metadata", "ss_metadata", "ra_metadata", "launchbox_metadata", "hasheous_metadata",
     "gamelist_metadata", "flashpoint_metadata", "hltb_metadata", "demozoo_metadata", "pouet_metadata",
     "csdb_metadata", "steam_metadata"}

  /** The first scan of a new row, a complete rescan of a known one, or any other scan. */
  datatype Mode = FirstScan | CompleteRescan | CarryingScan

  /** One provider's place in the scan: its answer, its id field and its blob field. */
  datatype Handler = Handler(source: Source, idField: Field, blobField: Option<Field>, data: Attrs)

  datatype Priorities = Priorities(metadata: seq<Source>, artwork: seq<Source>, overrides: map<Field, seq<Source>>)

  predicate Truthy(attrs: Attrs, field: Field) { field in attrs && attrs[field] != "" }

  // ---- Priority order ----

  function Filter(sources: seq<Source>, keep: set<Source>): (r: seq<Source>)
    ensures forall s :: s in r <==> s in sources && s in keep
  {
    if sources == [] then []
    else (if sources[0] in keep then [sources[0]] else []) + Filter(sources[1..], keep)
  }

  function PriorityFor(p: Priorities, kind: Field): seq<Source> {
    if kind == "metadata" then p.metadata else if kind in p.overrides then p.overrides[kind] else p.artwork
  }

  /** The configured order restricted to `sources`, then whatever it leaves out. */
  function Ordered(sources: seq<Source>, p: Priorities, kind: Field): (r: seq<Source>)
    ensures forall s :: s in r <==> s in sources
  {
    var listed := Filter(PriorityFor(p, kind), Members(sources));
    listed + Filter(sources, Members(sources) - Members(listed))
  }

  // ---- Which sources may write ----

  function SceneApplySources(available: seq<Source>, locked: bool): seq<Source> {
    var scene := Filter(available, SCENE_METADATA_SOURCES);
    if scene != [] then scene else if locked then [] else available
  }

  function DataOf(handlers: seq<Handler>, s: Source): Attrs {
    if handlers == [] then map[]
    else if handlers[0].source == s then handlers[0].data else DataOf(handlers[1..], s)
  }

  function Available(handlers: seq<Handler>): seq<Source> {
    if handlers == [] then []
    else (if Truthy(handlers[0].data, handlers[0].idField) then [handlers[0].source] else []) + Available(handlers[1..])
  }

  predicate SceneLocked(attrs: Attrs, handlers: seq<Handler>) {
    exists i :: 0 <= i < |handlers| && handlers[i].source in SCENE_METADATA_SOURCES
                && (Truthy(handlers[i].data, handlers[i].idField) || Truthy(attrs, handlers[i].idField))
  }

  // ---- What the loops leave ----

  /** Write every truthy field of a provider's answer. */
  function Overlay(attrs: Attrs, data: Attrs): Attrs {
    attrs + map k | k in data && data[k] != "" :: data[k]
  }

  /** The highest-priority source is written last, so it wins. */
  function OverlayAll(attrs: Attrs, handlers: seq<Handler>, order: seq<Source>): Attrs {
    if order == [] then attrs else Overlay(OverlayAll(attrs, handlers, order[1..]), DataOf(handlers, order[0]))
  }

  function OverlayField(attrs: Attrs, handlers: seq<Handler>, order: seq<Source>, field: Field): Attrs {
    if order == [] then attrs
    else
      var below, data := OverlayField(attrs, handlers, order[1..], field), DataOf(handlers, order[0]);
      if Truthy(data, field) then below[field := data[field]] else below
  }

  function OverlayFields(attrs: Attrs, handlers: seq<Handler>, sources: seq<Source>, p: Priorities, fields: seq<Field>): Attrs {
    if fields == [] then attrs
    else
      var field := fields[|fields| - 1];
      OverlayField(OverlayFields(attrs, handlers, sources, p, fields[..|fields| - 1]), handlers,
                   Ordered(sources, p, field), field)
  }

  function Merged(attrs: Attrs, handlers: seq<Handler>, sources: seq<Source>, p: Priorities): Attrs {
    OverlayFields(OverlayAll(attrs, handlers, Ordered(sources, p, "metadata")), handlers, sources, p, ARTWORK)
  }

  // ---- The reset of a complete rescan ----

  /** One lookup: whether it ran, and whether it raised. */
  datatype Lookup = Lookup(source: Source, ran: bool, failed: bool)

  /** Sources whose lookup ran and ruled its answer in or out. */
  function Attempted(lookups: seq<Lookup>): set<Source> {
    if lookups == [] then {}
    else
      var before, last := Attempted(lookups[..|lookups| - 1]), lookups[|lookups| - 1];
      if last.failed then before - {last.source} else if last.ran then before + {last.source} else before
  }

  function ResetOne(attrs: Attrs, h: Handler): Attrs {
    var cleared := attrs[h.idField := ""];
    if h.blobField.Some? then cleared[h.blobField.value := ""] else cleared
  }

  function ResetIds(attrs: Attrs, handlers: seq<Handler>, attempted: set<Source>, selected: set<Source>): Attrs {
    if handlers == [] then attrs
    else
      var h, before := handlers[|handlers| - 1], ResetIds(attrs, handlers[..|handlers| - 1], attempted, selected);
      if h.source in attempted || h.source !in selected then ResetOne(before, h) else before
  }

  function Cleared(attrs: Attrs, fields: seq<Field>): Attrs {
    attrs + map k | k in fields :: ""
  }

  function Reset(attrs: Attrs, handlers: seq<Handler>, attempted: set<Source>, selected: set<Source>): Attrs {
    Cleared(ResetIds(attrs, handlers, attempted, selected), CLEARED)
  }

  /** The dictionary a scan starts from: first scans and complete rescans see no stored id. */
  function Seeded(row: Attrs, mode: Mode): Attrs {
    if mode.CarryingScan? then row else row - CARRIED
  }

  /** The dictionary the loops start from. */
  function Prepared(row: Attrs, handlers: seq<Handler>, lookups: seq<Lookup>, selected: set<Source>, mode: Mode): Attrs {
    if mode.CompleteRescan? then Reset(Seeded(row, mode), handlers, Attempted(lookups), selected) else Seeded(row, mode)
  }

  /** Who may write in this scan of a row. */
  function Applied(row: Attrs, handlers: seq<Handler>, lookups: seq<Lookup>, selected: set<Source>, mode: Mode): seq<Source> {
    SceneApplySources(Available(handlers), SceneLocked(Prepared(row, handlers, lookups, selected, mode), handlers))
  }

  /** A scan of a stored row, up to the merged dictionary. */
  function Scanned(row: Attrs, handlers: seq<Handler>, lookups: seq<Lookup>, selected: set<Source>, mode: Mode,
                   p: Priorities): Attrs
  {
    Merged(Prepared(row, handlers, lookups, selected, mode), handlers, Applied(row, handlers, lookups, selected, mode), p)
  }

  /** Storing a dictionary: an attribute it does not have stays as it was. */
  function Written(row: Attrs, attrs: Attrs): Attrs { row + attrs }

  /** The row after its scan. */
  function Rescanned(row: Attrs, handlers: seq<Handler>, lookups: seq<Lookup>, selected: set<Source>, mode: Mode,
                     p: Priorities): Attrs
  {
    Written(row, Scanned(row, handlers, lookups, selected, mode, p))
  }

  /** SteamGridDB resolves after the merge. Its cover is used only when it outranks every
      provider that has one, and never over a locked cover. */
  function SgdbApplied(attrs: Attrs, handlers: seq<Handler>, attempted: bool, complete: bool, id: Value, cover: Value,
                       locked: bool, p: Priorities): Attrs
  {
    var cleared := if complete && attempted then attrs["sgdb_id" := ""] else attrs;
    if id == "" then cleared
    else
      var matched := cleared["sgdb_id" := id];
      var ranked := Ordered(WithCover(handlers) + ["sgdb"], p, URL_COVER);
      if cover != "" && !locked && ranked != [] && ranked[0] == "sgdb" then matched[URL_COVER := cover] else matched
  }

  function WithCover(handlers: seq<Handler>): seq<Source> {
    if handlers == [] then []
    else (if Truthy(handlers[0].data, URL_COVER) then [handlers[0].source] else []) + WithCover(handlers[1..])
  }

  /** One ROM's stored row, and the attribute dictionary of its scan. */
  class RomScan {
    var row: Attrs
    var attrs: Attrs
    var attempted: set<Source>

    method ResolveFetches(lookups: seq<Lookup>)
      modifies this`attempted
      ensures attempted == Attempted(lookups)
    {
      attempted := {};
      for i := 0 to |lookups|
        invariant attempted == Attempted(lookups[..i])
      {
        assert lookups[..i + 1][..i] == lookups[..i] && lookups[..i + 1][i] == lookups[i];
        if lookups[i].ran {
          attempted := attempted + {lookups[i].source};
        }
        if lookups[i].failed {
          attempted := attempted - {lookups[i].source};
        }
      }
      assert lookups[..|lookups|] == lookups;
    }

    method ResetForRescan(handlers: seq<Handler>, selected: set<Source>)
      modifies this`attrs
      ensures attrs == Reset(old(attrs), handlers, attempted, selected)
    {
      for i := 0 to |handlers|
        invariant attrs == ResetIds(old(attrs), handlers[..i], attempted, selected)
      {
        assert handlers[..i + 1][..i] == handlers[..i] && handlers[..i + 1][i] == handlers[i];
        var h := handlers[i];
        if h.source in attempted || h.source !in selected {
          attrs := attrs[h.idField := ""];
          if h.blobField.Some? {
            attrs := attrs[h.blobField.value := ""];
          }
        }
      }
      assert handlers[..|handlers|] == handlers;
      attrs := Cleared(attrs, CLEARED);
    }

    method ApplyAnswer(data: Attrs)
      modifies this`attrs
      ensures attrs == Overlay(old(attrs), data)
    {
      var todo := data.Keys;
      while todo != {}
        invariant todo <= data.Keys
        invariant forall k | Truthy(data, k) && k !in todo :: k in attrs && attrs[k] == data[k]
        invariant forall k | !Truthy(data, k) || k in todo ::
                    (k in attrs <==> k in old(attrs)) && (k in attrs ==> attrs[k] == old(attrs)[k])
        decreases |todo|
      {
        var key :| key in todo;
        todo := todo - {key};
        if data[key] != "" {
          attrs := attrs[key := data[key]];
        }
      }
      assert attrs.Keys == Overlay(old(attrs), data).Keys;
    }

    method MergeMetadata(handlers: seq<Handler>, sources: seq<Source>, p: Priorities)
      modifies this`attrs
      ensures attrs == OverlayAll(old(attrs), handlers, Ordered(sources, p, "metadata"))
    {
      var order := Ordered(sources, p, "metadata");
      assert order[|order|..] == [];
      for i := |order| downto 0
        invariant attrs == OverlayAll(old(attrs), handlers, order[i..])
      {
        assert order[i..][1..] == order[i + 1..];
        ApplyAnswer(DataOf(handlers, order[i]));
      }
      assert order[0..] == order;
    }

    method MergeArtwork(handlers: seq<Handler>, sources: seq<Source>, p: Priorities)
      modifies this`attrs
      ensures attrs == OverlayFields(old(attrs), handlers, sources, p, ARTWORK)
    {
      for f := 0 to |ARTWORK|
        invariant attrs == OverlayFields(old(attrs), handlers, sources, p, ARTWORK[..f])
      {
        assert ARTWORK[..f + 1][..f] == ARTWORK[..f] && ARTWORK[..f + 1][f] == ARTWORK[f];
        MergeField(handlers, Ordered(sources, p, ARTWORK[f]), ARTWORK[f]);
      }
      assert ARTWORK[..|ARTWORK|] == ARTWORK;
    }

    method MergeField(handlers: seq<Handler>, order: seq<Source>, field: Field)
      modifies this`attrs
      ensures attrs == OverlayField(old(attrs), handlers, order, field)
    {
      assert order[|order|..] == [];
      for i := |order| downto 0
        invariant attrs == OverlayField(old(attrs), handlers, order[i..], field)
      {
        assert order[i..][1..] == order[i + 1..];
        var data := DataOf(handlers, order[i]);
        if Truthy(data, field) {
          attrs := attrs[field := data[field]];
        }
      }
      assert order[0..] == order;
    }

    /** A dictionary of its own; the provider ids and blobs come along only on a carrying scan. */
    method Seed(mode: Mode)
      modifies this`attrs
      ensures attrs == Seeded(row, mode)
    {
      hide CARRIED;
      attrs := row - CARRIED;
      if mode.CarryingScan? {
        attrs := attrs + map k | k in row && k in CARRIED :: row[k];
        assert attrs == row;
      }
    }

    method Scan(handlers: seq<Handler>, lookups: seq<Lookup>, selected: set<Source>, mode: Mode, p: Priorities)
      modifies this`attrs, this`attempted
      ensures attrs == Scanned(row, handlers, lookups, selected, mode, p)
    {
      hide CARRIED, Seeded, Reset, SceneLocked;
      Seed(mode);
      ResolveFetches(lookups);
      if mode.CompleteRescan? {
        ResetForRescan(handlers, selected);
      }
      var sources := SceneApplySources(Available(handlers), SceneLocked(attrs, handlers));
      MergeMetadata(handlers, sources, p);
      MergeArtwork(handlers, sources, p);
    }

    /** Only the attributes the dictionary has are stored. */
    method AddRom()
      modifies this`row
      ensures row == Written(old(row), attrs)
    {
      row := row + attrs;
    }
  }
}
