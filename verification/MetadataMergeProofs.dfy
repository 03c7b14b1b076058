/** The overwrite loops pick, for every field, the first truthy answer by priority; a scene
    ROM is written only by scene sources; a rescan forgets an id only for a reason. */
module MetadataMergeProofs {
  import opened Common
  import opened MetadataMerge

  /** The first source of an order that has something to say about a field. */
  function FirstTruthy(handlers: seq<Handler>, order: seq<Source>, field: Field): Option<Value> {
    if order == [] then None
    else if Truthy(DataOf(handlers, order[0]), field) then Some(DataOf(handlers, order[0])[field])
    else FirstTruthy(handlers, order[1..], field)
  }

  lemma {:induction false} SomeoneAnswers(handlers: seq<Handler>, order: seq<Source>, field: Field)
    ensures FirstTruthy(handlers, order, field).Some? <==> exists s :: s in order && Truthy(DataOf(handlers, s), field)
  {
    if order != [] {
      SomeoneAnswers(handlers, order[1..], field);
      assert order[0] in order && forall s | s in order :: s == order[0] || s in order[1..];
    }
  }

  predicate ReadsAs(attrs: Attrs, field: Field, picked: Option<Value>, prior: Attrs) {
    if picked.Some? then field in attrs && attrs[field] == picked.value
    else (field in attrs <==> field in prior) && (field in prior ==> attrs[field] == prior[field])
  }

  lemma {:induction false} OverlayAllPicks(attrs: Attrs, handlers: seq<Handler>, order: seq<Source>, field: Field)
    ensures ReadsAs(OverlayAll(attrs, handlers, order), field, FirstTruthy(handlers, order, field), attrs)
  {
    if order != [] {
      OverlayAllPicks(attrs, handlers, order[1..], field);
    }
  }

  lemma {:induction false} OverlayFieldPicks(attrs: Attrs, handlers: seq<Handler>, order: seq<Source>, at: Field, field: Field)
    ensures ReadsAs(OverlayField(attrs, handlers, order, at), field,
                    if field == at then FirstTruthy(handlers, order, field) else None, attrs)
  {
    if order != [] {
      OverlayFieldPicks(attrs, handlers, order[1..], at, field);
    }
  }

  lemma {:induction false} OverlayFieldsPicks(attrs: Attrs, handlers: seq<Handler>, sources: seq<Source>, p: Priorities,
                                              fields: seq<Field>, field: Field)
    ensures ReadsAs(OverlayFields(attrs, handlers, sources, p, fields), field,
                    if field in fields then FirstTruthy(handlers, Ordered(sources, p, field), field) else None, attrs)
  {
    if fields != [] {
      var front, last := fields[..|fields| - 1], fields[|fields| - 1];
      assert fields == front + [last];
      OverlayFieldsPicks(attrs, handlers, sources, p, front, field);
      OverlayFieldPicks(OverlayFields(attrs, handlers, sources, p, front), handlers, Ordered(sources, p, last), last, field);
    }
  }

  /** The order a field is decided by. */
  function Kind(field: Field): Field { if field in ARTWORK then field else "metadata" }

  /** Every artwork field takes the first truthy answer under its own order, every other field
      the first under the metadata order, and a field nobody answers keeps its prior value. */
  lemma FirstByPriority(attrs: Attrs, handlers: seq<Handler>, sources: seq<Source>, p: Priorities, field: Field)
    ensures ReadsAs(Merged(attrs, handlers, sources, p), field,
                    FirstTruthy(handlers, Ordered(sources, p, Kind(field)), field), attrs)
  {
    OverlayAllPicks(attrs, handlers, Ordered(sources, p, "metadata"), field);
    SomeoneAnswers(handlers, Ordered(sources, p, "metadata"), field);
    SomeoneAnswers(handlers, Ordered(sources, p, field), field);
    OverlayFieldsPicks(OverlayAll(attrs, handlers, Ordered(sources, p, "metadata")), handlers, sources, p, ARTWORK, field);
  }

  // ---- What the orders mean ----

  /** The first listed source that is present. */
  function FirstListed(listed: seq<Source>, present: set<Source>): Option<Source> {
    if listed == [] then None
    else if listed[0] in present then Some(listed[0]) else FirstListed(listed[1..], present)
  }

  lemma {:induction false} FilterLeads(listed: seq<Source>, keep: set<Source>)
    ensures FirstListed(listed, keep) == if Filter(listed, keep) == [] then None else Some(Filter(listed, keep)[0])
  {
    if listed != [] { FilterLeads(listed[1..], keep); }
  }

  /** The priority list decides first, duplicates and all: an unlisted source leads an order
      only if no listed one is present. */
  lemma LeaderByPriority(sources: seq<Source>, p: Priorities, kind: Field)
    requires sources != []
    ensures Ordered(sources, p, kind) != []
    ensures var listed := if kind == "metadata" then p.metadata
                          else if kind in p.overrides then p.overrides[kind] else p.artwork;
            Ordered(sources, p, kind)[0] == FirstListed(listed, Members(sources)).GetOr(sources[0])
  {
    FilterLeads(PriorityFor(p, kind), Members(sources));
    assert sources[0] in sources;
  }

  // ---- The orders as they are configured ----

  /** The list that ranks a field's sources: an artwork field's own, if it has one, else the
      artwork list; the metadata list for every other field. */
  function RankOf(p: Priorities, field: Field): seq<Source> {
    if field == "url_cover" || field == "url_screenshots" || field == "url_manual" then
      if field in p.overrides then p.overrides[field] else p.artwork
    else p.metadata
  }

  /** The first truthy answer along `order`, among the sources of `keep`. */
  function FirstAmong(handlers: seq<Handler>, order: seq<Source>, keep: set<Source>, field: Field): Option<Value> {
    if order == [] then None
    else if order[0] in keep && Truthy(DataOf(handlers, order[0]), field) then Some(DataOf(handlers, order[0])[field])
    else FirstAmong(handlers, order[1..], keep, field)
  }

  /** Along the ranking first; a source it does not list comes in only when no listed one answers. */
  function FirstRanked(handlers: seq<Handler>, rank: seq<Source>, sources: seq<Source>, field: Field): Option<Value> {
    var listed := FirstAmong(handlers, rank, Members(sources), field);
    if listed.Some? then listed else FirstAmong(handlers, sources, Members(sources) - Members(rank), field)
  }

  lemma {:induction false} FilterIsAmong(handlers: seq<Handler>, order: seq<Source>, keep: set<Source>, field: Field)
    ensures FirstTruthy(handlers, Filter(order, keep), field) == FirstAmong(handlers, order, keep, field)
  {
    if order != [] {
      FilterIsAmong(handlers, order[1..], keep, field);
      var rest := Filter(order[1..], keep);
      assert [] + rest == rest && ([order[0]] + rest)[1..] == rest;
    }
  }

  lemma {:induction false} FirstOfTwo(handlers: seq<Handler>, a: seq<Source>, b: seq<Source>, field: Field)
    ensures FirstTruthy(handlers, a + b, field) ==
            if FirstTruthy(handlers, a, field).Some? then FirstTruthy(handlers, a, field) else FirstTruthy(handlers, b, field)
  {
    if a == [] {
      assert a + b == b;
    } else {
      assert (a + b)[1..] == a[1..] + b;
      FirstOfTwo(handlers, a[1..], b, field);
    }
  }

  lemma OrderedIsRanked(handlers: seq<Handler>, sources: seq<Source>, p: Priorities, field: Field)
    ensures FirstTruthy(handlers, Ordered(sources, p, Kind(field)), field) == FirstRanked(handlers, RankOf(p, field), sources, field)
  {
    var rank, present := RankOf(p, field), Members(sources);
    assert PriorityFor(p, Kind(field)) == rank;
    var listed := Filter(rank, present);
    var rest := present - Members(listed);
    assert rest == present - Members(rank);
    FirstOfTwo(handlers, listed, Filter(sources, rest), field);
    FilterIsAmong(handlers, rank, present, field);
    FilterIsAmong(handlers, sources, rest, field);
  }

  /** After the loops every field is the first truthy answer along the list configured for it
      among the sources that apply, unlisted ones last; and as before when nobody answers. */
  lemma FirstByConfiguredPriority(attrs: Attrs, handlers: seq<Handler>, sources: seq<Source>, p: Priorities, field: Field)
    ensures ReadsAs(Merged(attrs, handlers, sources, p), field, FirstRanked(handlers, RankOf(p, field), sources, field), attrs)
  {
    FirstByPriority(attrs, handlers, sources, p, field);
    OrderedIsRanked(handlers, sources, p, field);
    hide Merged, Ordered, FirstTruthy, FirstRanked, RankOf;
  }

  /** A provider's answer is that of its own handler, and a source without one answers nothing. */
  lemma {:induction false} AnswerIsItsOwn(handlers: seq<Handler>, s: Source)
    ensures forall i | 0 <= i < |handlers| && handlers[i].source == s && (forall j | 0 <= j < i :: handlers[j].source != s) ::
              DataOf(handlers, s) == handlers[i].data
    ensures (forall h | h in handlers :: h.source != s) ==> DataOf(handlers, s) == map[]
  {
    if handlers != [] {
      var rest := handlers[1..];
      AnswerIsItsOwn(rest, s);
      if handlers[0].source != s {
        forall i | 0 <= i < |handlers| && handlers[i].source == s && (forall j | 0 <= j < i :: handlers[j].source != s)
          ensures DataOf(handlers, s) == handlers[i].data
        {
          assert rest[i - 1] == handlers[i] && forall j | 0 <= j < i - 1 :: rest[j] == handlers[j + 1];
        }
      }
    }
  }

  // ---- The scene lock ----

  /** Demozoo, Pouet and CSDb identify a production. */
  predicate IsScene(s: Source) { s == "demozoo" || s == "pouet" || s == "csdb" }

  lemma SceneSources(s: Source)
    ensures s in SCENE_METADATA_SOURCES <==> IsScene(s)
  {
  }

  /** On a locked ROM every field the loops changed holds a scene source's answer, and
      without a lock or a scene match nobody is left out. */
  lemma SceneOnlyWhenLocked(attrs: Attrs, handlers: seq<Handler>, p: Priorities, field: Field)
    requires SceneLocked(attrs, handlers)
    ensures var merged := Merged(attrs, handlers, SceneApplySources(Available(handlers), true), p);
            || ReadsAs(merged, field, None, attrs)
            || exists s :: IsScene(s) && Truthy(DataOf(handlers, s), field)
                           && field in merged && merged[field] == DataOf(handlers, s)[field]
  {
    var sources := SceneApplySources(Available(handlers), true);
    var order := Ordered(sources, p, Kind(field));
    FirstByPriority(attrs, handlers, sources, p, field);
    FirstHasSource(handlers, order, field);
    assert forall s | s in sources :: IsScene(s);
  }

  lemma {:induction false} FirstHasSource(handlers: seq<Handler>, order: seq<Source>, field: Field)
    ensures FirstTruthy(handlers, order, field).Some? ==>
              exists s :: s in order && Truthy(DataOf(handlers, s), field)
                          && DataOf(handlers, s)[field] == FirstTruthy(handlers, order, field).value
  {
    if order != [] {
      FirstHasSource(handlers, order[1..], field);
    }
  }

  lemma UnlockedAppliesEveryone(attrs: Attrs, handlers: seq<Handler>)
    requires !SceneLocked(attrs, handlers)
    ensures SceneApplySources(Available(handlers), false) == Available(handlers)
  {
    forall s | s in Available(handlers) ensures s !in SCENE_METADATA_SOURCES {
      AvailableMeans(handlers, s);
    }
    assert Filter(Available(handlers), SCENE_METADATA_SOURCES) == [] by {
      if Filter(Available(handlers), SCENE_METADATA_SOURCES) != [] {
        var s := Filter(Available(handlers), SCENE_METADATA_SOURCES)[0];
        assert s in Filter(Available(handlers), SCENE_METADATA_SOURCES);
      }
    }
  }

  lemma {:induction false} AvailableMeans(handlers: seq<Handler>, s: Source)
    ensures s in Available(handlers) <==>
            exists i :: 0 <= i < |handlers| && handlers[i].source == s && Truthy(handlers[i].data, handlers[i].idField)
  {
    if handlers != [] {
      AvailableMeans(handlers[1..], s);
      assert forall i | 1 <= i < |handlers| :: handlers[i] == handlers[1..][i - 1];
      if i :| 0 <= i < |handlers| && handlers[i].source == s && Truthy(handlers[i].data, handlers[i].idField) {
        if i > 0 { assert handlers[1..][i - 1].source == s; }
      }
      if i :| 0 <= i < |handlers[1..]| && handlers[1..][i].source == s && Truthy(handlers[1..][i].data, handlers[1..][i].idField) {
        assert handlers[i + 1].source == s;
      }
    }
  }

  // ---- The reset ----

  /** A source counts as attempted exactly when a lookup of its ran without raising and none
      raised afterwards. */
  lemma {:induction false} AttemptedExactly(lookups: seq<Lookup>, s: Source)
    ensures s in Attempted(lookups) <==>
            exists i :: 0 <= i < |lookups| && lookups[i].source == s && lookups[i].ran && !lookups[i].failed
                        && forall j | i < j < |lookups| :: !(lookups[j].source == s && lookups[j].failed)
  {
    if lookups != [] {
      var front, last := lookups[..|lookups| - 1], |lookups| - 1;
      AttemptedExactly(front, s);
      assert forall i | 0 <= i < last :: front[i] == lookups[i];
      if i :| 0 <= i < |lookups| && lookups[i].source == s && lookups[i].ran && !lookups[i].failed
              && forall j | i < j < |lookups| :: !(lookups[j].source == s && lookups[j].failed) {
        if i < last { assert front[i].source == s; }
      }
      if i :| 0 <= i < |front| && front[i].source == s && front[i].ran && !front[i].failed
              && forall j | i < j < |front| :: !(front[j].source == s && front[j].failed) {
        assert lookups[i].source == s;
        if s in Attempted(lookups) && !(lookups[last].source == s && lookups[last].failed) {
          assert forall j | i < j < |lookups| :: !(lookups[j].source == s && lookups[j].failed);
        }
      }
    }
  }

  /** Each lookup is for its own source, so a source counts as attempted exactly when its
      lookup ran and did not raise. */
  lemma AttemptedMeans(lookups: seq<Lookup>, s: Source)
    requires forall i, j | 0 <= i < j < |lookups| :: lookups[i].source != lookups[j].source
    ensures s in Attempted(lookups) <==> exists l :: l in lookups && l.source == s && l.ran && !l.failed
  {
    AttemptedExactly(lookups, s);
    if l :| l in lookups && l.source == s && l.ran && !l.failed {
      var i :| 0 <= i < |lookups| && lookups[i] == l;
      assert lookups[i].source == s;
    }
    hide Attempted;
  }

  predicate Resets(h: Handler, attempted: set<Source>, selected: set<Source>) {
    h.source in attempted || h.source !in selected
  }

  predicate Owns(h: Handler, field: Field) { h.idField == field || h.blobField == Some(field) }

  predicate Clears(h: Handler, field: Field, attempted: set<Source>, selected: set<Source>) {
    Owns(h, field) && Resets(h, attempted, selected)
  }

  predicate AnyClears(handlers: seq<Handler>, field: Field, attempted: set<Source>, selected: set<Source>) {
    exists i :: 0 <= i < |handlers| && Clears(handlers[i], field, attempted, selected)
  }

  lemma {:induction false} ResetIdsExactly(attrs: Attrs, handlers: seq<Handler>, attempted: set<Source>, selected: set<Source>, field: Field)
    ensures ReadsAs(ResetIds(attrs, handlers, attempted, selected), field,
                    if AnyClears(handlers, field, attempted, selected) then Some("") else None, attrs)
  {
    if handlers != [] {
      var front, last := handlers[..|handlers| - 1], handlers[|handlers| - 1];
      ResetIdsExactly(attrs, front, attempted, selected, field);
      AnyClearsSnoc(handlers, field, attempted, selected);
      hide AnyClears;
    }
  }

  lemma AnyClearsSnoc(handlers: seq<Handler>, field: Field, attempted: set<Source>, selected: set<Source>)
    requires handlers != []
    ensures AnyClears(handlers, field, attempted, selected) <==>
            AnyClears(handlers[..|handlers| - 1], field, attempted, selected)
            || Clears(handlers[|handlers| - 1], field, attempted, selected)
  {
    hide Clears;
    var front := handlers[..|handlers| - 1];
    if i :| 0 <= i < |front| && Clears(front[i], field, attempted, selected) {
      assert Clears(handlers[i], field, attempted, selected);
    }
    if i :| 0 <= i < |front| && Clears(handlers[i], field, attempted, selected) {
      assert Clears(front[i], field, attempted, selected);
    }
  }

  /** After a complete rescan the stored id of a provider is a newly matched one, or has been
      forgotten because its lookup ran without failing or its source was deselected, or is the
      one stored before. */
  lemma RescanForgetsWithReason(row: Attrs, handlers: seq<Handler>, lookups: seq<Lookup>, selected: set<Source>,
                                p: Priorities, h: Handler)
    requires forall i, j | 0 <= i < j < |lookups| :: lookups[i].source != lookups[j].source
    requires h in handlers && h.idField !in CLEARED && h.idField !in ARTWORK
    requires forall g | g in handlers && g != h :: !Owns(g, h.idField)
    ensures var sources := Applied(row, handlers, lookups, selected, CompleteRescan);
            var matched := FirstTruthy(handlers, Ordered(sources, p, "metadata"), h.idField);
            var ruledOut := exists l :: l in lookups && l.source == h.source && l.ran && !l.failed;
            ReadsAs(Rescanned(row, handlers, lookups, selected, CompleteRescan, p), h.idField,
                    if matched.Some? then matched else if ruledOut || h.source !in selected then Some("") else None, row)
  {
    var attempted := Attempted(lookups);
    var start := Prepared(row, handlers, lookups, selected, CompleteRescan);
    var sources := Applied(row, handlers, lookups, selected, CompleteRescan);
    AttemptedMeans(lookups, h.source);
    ResetIdsExactly(Seeded(row, CompleteRescan), handlers, attempted, selected, h.idField);
    OwnerClears(handlers, h, attempted, selected);
    hide ResetIds, Merged, FirstTruthy, Applied, CARRIED;
    FirstByPriority(start, handlers, sources, p, h.idField);
  }

  lemma OwnerClears(handlers: seq<Handler>, h: Handler, attempted: set<Source>, selected: set<Source>)
    requires h in handlers && forall g | g in handlers && g != h :: !Owns(g, h.idField)
    ensures AnyClears(handlers, h.idField, attempted, selected) <==> Resets(h, attempted, selected)
  {
    var k :| 0 <= k < |handlers| && handlers[k] == h;
    if Resets(h, attempted, selected) { assert Clears(handlers[k], h.idField, attempted, selected); }
  }

  // ---- What the lock sees of a stored scene id ----

  predicate SceneAnswered(handlers: seq<Handler>) {
    exists i :: 0 <= i < |handlers| && IsScene(handlers[i].source)
                && Truthy(handlers[i].data, handlers[i].idField)
  }

  /** The scene providers keep their ids in three fields. */
  predicate SceneIdsCarried(handlers: seq<Handler>) {
    forall h | h in handlers && IsScene(h.source) :: h.idField in {"demozoo_id", "pouet_id", "csdb_id"}
  }

  /** A scan that starts over finds no stored id to lock on. */
  lemma StartsUnlocked(row: Attrs, handlers: seq<Handler>, lookups: seq<Lookup>, selected: set<Source>, mode: Mode, field: Field)
    requires !mode.CarryingScan? && field in {"demozoo_id", "pouet_id", "csdb_id"}
    ensures !Truthy(Prepared(row, handlers, lookups, selected, mode), field)
  {
    assert field in CARRIED;
    assert field !in CLEARED && field !in ARTWORK;
    ResetIdsExactly(Seeded(row, mode), handlers, Attempted(lookups), selected, field);
    hide ResetIds, CARRIED;
  }

  /** A ROM with a scene id on record is locked to the scene sources exactly when the scan
      carries its ids over, or some scene source answered. */
  lemma LockedExactly(row: Attrs, handlers: seq<Handler>, lookups: seq<Lookup>, selected: set<Source>, mode: Mode, h: Handler)
    requires SceneIdsCarried(handlers)
    requires h in handlers && IsScene(h.source) && Truthy(row, h.idField)
    ensures SceneLocked(Prepared(row, handlers, lookups, selected, mode), handlers)
            <==> mode.CarryingScan? || SceneAnswered(handlers)
  {
    var start := Prepared(row, handlers, lookups, selected, mode);
    if mode.CarryingScan? {
      var k :| 0 <= k < |handlers| && handlers[k] == h;
      assert Truthy(start, handlers[k].idField);
    } else {
      forall i | 0 <= i < |handlers| && handlers[i].source in SCENE_METADATA_SOURCES
        ensures !Truthy(start, handlers[i].idField)
      {
        StartsUnlocked(row, handlers, lookups, selected, mode, handlers[i].idField);
      }
    }
    hide Prepared, CARRIED;
  }

  /** So a known production is handed to the catalogs exactly when it is scanned anew, no scene
      source answers and a catalog does. */
  lemma HandedOverExactly(row: Attrs, handlers: seq<Handler>, lookups: seq<Lookup>, selected: set<Source>, mode: Mode, h: Handler)
    requires SceneIdsCarried(handlers)
    requires h in handlers && IsScene(h.source) && Truthy(row, h.idField)
    ensures (exists s :: s in Applied(row, handlers, lookups, selected, mode) && !IsScene(s))
            <==> !mode.CarryingScan? && !SceneAnswered(handlers) && Available(handlers) != []
  {
    LockedExactly(row, handlers, lookups, selected, mode, h);
    AnsweredIsAvailable(handlers);
    var sources := Applied(row, handlers, lookups, selected, mode);
    hide Prepared, Available, SceneAnswered, SceneLocked, SCENE_METADATA_SOURCES;
    var scene := Filter(Available(handlers), SCENE_METADATA_SOURCES);
    if scene != [] {
      assert scene[0] in scene;
    } else if sources != [] {
      assert sources[0] in Available(handlers);
    }
  }

  /** A scan that carries a scene id over leaves every field of the row as it was, or gives it a
      scene source's answer. */
  lemma KnownProductionIsKept(row: Attrs, handlers: seq<Handler>, lookups: seq<Lookup>, selected: set<Source>,
                              p: Priorities, h: Handler, field: Field)
    requires h in handlers && IsScene(h.source) && Truthy(row, h.idField)
    ensures var row' := Rescanned(row, handlers, lookups, selected, CarryingScan, p);
            || ReadsAs(row', field, None, row)
            || exists s :: IsScene(s) && Truthy(DataOf(handlers, s), field)
                           && field in row' && row'[field] == DataOf(handlers, s)[field]
  {
    var k :| 0 <= k < |handlers| && handlers[k] == h;
    assert Truthy(row, handlers[k].idField);
    SceneSources(h.source);
    hide CARRIED, Merged, SceneApplySources, Available, DataOf, SCENE_METADATA_SOURCES, IsScene;
    SceneOnlyWhenLocked(row, handlers, p, field);
  }

  lemma AnsweredIsAvailable(handlers: seq<Handler>)
    ensures SceneAnswered(handlers) <==> exists s :: s in Available(handlers) && IsScene(s)
  {
    if i :| 0 <= i < |handlers| && IsScene(handlers[i].source) && Truthy(handlers[i].data, handlers[i].idField) {
      AvailableMeans(handlers, handlers[i].source);
    }
    if s :| s in Available(handlers) && IsScene(s) {
      AvailableMeans(handlers, s);
    }
  }

  // ---- SteamGridDB ----

  /** Of SteamGridDB and the providers with a cover, it is the first listed; or nobody else
      has a cover at all. */
  predicate SgdbLeads(handlers: seq<Handler>, listed: seq<Source>) {
    || Covering(handlers) == {}
    || FirstListed(listed, Covering(handlers) + {"sgdb"}) == Some("sgdb")
  }

  /** The providers whose answer has a cover. */
  function Covering(handlers: seq<Handler>): set<Source> {
    set i | 0 <= i < |handlers| && Truthy(handlers[i].data, "url_cover") :: handlers[i].source
  }

  lemma {:induction false} CoveringAreWithCover(handlers: seq<Handler>)
    ensures Members(WithCover(handlers)) == Covering(handlers)
  {
    if handlers != [] {
      var rest := handlers[1..];
      CoveringAreWithCover(rest);
      var first := if Truthy(handlers[0].data, "url_cover") then [handlers[0].source] else [];
      assert WithCover(handlers) == first + WithCover(rest);
      assert Members(first + WithCover(rest)) == Members(first) + Members(WithCover(rest));
      forall s ensures s in Covering(handlers) <==> s in Members(first) + Covering(rest) {
        if i :| 0 <= i < |rest| && Truthy(rest[i].data, "url_cover") && rest[i].source == s {
          assert handlers[i + 1] == rest[i];
        }
        if i :| 0 <= i < |handlers| && Truthy(handlers[i].data, "url_cover") && handlers[i].source == s {
          if i > 0 { assert rest[i - 1] == handlers[i]; }
        }
      }
    }
  }

  lemma SgdbRanks(handlers: seq<Handler>, p: Priorities)
    requires "sgdb" !in WithCover(handlers)
    ensures var ranked := Ordered(WithCover(handlers) + ["sgdb"], p, URL_COVER);
            ranked != [] && (ranked[0] == "sgdb" <==> SgdbLeads(handlers, PriorityFor(p, URL_COVER)))
  {
    hide Ordered, WithCover, PriorityFor, Covering, FirstListed;
    var covers, listed := WithCover(handlers), PriorityFor(p, URL_COVER);
    var sources := covers + ["sgdb"];
    CoveringAreWithCover(handlers);
    LeaderFollows(sources, p);
    assert Members(sources) == Members(covers) + {"sgdb"};
    ListedIsPresent(listed, Members(sources));
    assert covers == [] <==> Covering(handlers) == {} by { if covers != [] { assert covers[0] in Members(covers); } }
    if covers != [] { assert sources[0] == covers[0] && covers[0] in covers; }
  }

  lemma LeaderFollows(sources: seq<Source>, p: Priorities)
    requires sources != []
    ensures var ranked, first := Ordered(sources, p, URL_COVER), FirstListed(PriorityFor(p, URL_COVER), Members(sources));
            ranked != [] && ranked[0] == if first.Some? then first.value else sources[0]
  {
    LeaderByPriority(sources, p, URL_COVER);
    hide Ordered;
  }

  lemma {:induction false} ListedIsPresent(listed: seq<Source>, present: set<Source>)
    ensures FirstListed(listed, present).Some? ==> FirstListed(listed, present).value in present
  {
    if listed != [] { ListedIsPresent(listed[1..], present); }
  }

  /** SteamGridDB's cover is used exactly when it leads the cover order over every provider
      that has a cover, whether or not that provider's answer was applied. */
  lemma SgdbCoverExactly(attrs: Attrs, handlers: seq<Handler>, attempted: bool, complete: bool, id: Value, cover: Value,
                         locked: bool, p: Priorities)
    requires id != "" && cover != "" && !locked && "sgdb" !in Covering(handlers)
    ensures ReadsAs(SgdbApplied(attrs, handlers, attempted, complete, id, cover, locked, p), URL_COVER,
                    if SgdbLeads(handlers, if "url_cover" in p.overrides then p.overrides["url_cover"] else p.artwork)
                    then Some(cover) else None, attrs)
  {
    CoveringAreWithCover(handlers);
    SgdbRanks(handlers, p);
    hide SgdbLeads, Ordered, Covering;
  }

  // ---- What a complete rescan clears ----

  /** After a complete rescan an artwork address is a freshly answered one or empty, and the stored
      pictures and locks are gone, unless a provider answered with such a field. */
  lemma RescanClearsArtwork(row: Attrs, handlers: seq<Handler>, lookups: seq<Lookup>, selected: set<Source>, p: Priorities,
                            field: Field)
    requires field in {"url_cover", "url_screenshots", "url_manual", "path_cover_s", "path_cover_l", "path_screenshots",
                       "path_manual", "locked_fields"}
    ensures var sources := Applied(row, handlers, lookups, selected, CompleteRescan);
            ReadsAs(Rescanned(row, handlers, lookups, selected, CompleteRescan, p), field,
                    Some(FirstRanked(handlers, RankOf(p, field), sources, field).GetOr("")), row)
  {
    var start := Prepared(row, handlers, lookups, selected, CompleteRescan);
    ClearedMeans(ResetIds(Seeded(row, CompleteRescan), handlers, Attempted(lookups), selected), field);
    hide ResetIds, Merged, FirstRanked, Applied, CARRIED, CLEARED, Cleared;
    FirstByConfiguredPriority(start, handlers, Applied(row, handlers, lookups, selected, CompleteRescan), p, field);
  }

  lemma ClearedMeans(attrs: Attrs, field: Field)
    requires field in {"url_cover", "url_screenshots", "url_manual", "path_cover_s", "path_cover_l", "path_screenshots",
                       "path_manual", "locked_fields"}
    ensures var after := Cleared(attrs, CLEARED); field in after && after[field] == ""
  {
    assert field in CLEARED by {
      assert CLEARED[0] == "url_cover" && CLEARED[1] == "url_screenshots" && CLEARED[2] == "url_manual";
      assert CLEARED[3] == "path_cover_s" && CLEARED[4] == "path_cover_l" && CLEARED[5] == "path_screenshots";
      assert CLEARED[6] == "path_manual" && CLEARED[7] == "locked_fields";
    }
  }

  /** The blob of a source goes with its id. */
  lemma BlobGoesWithTheId(row: Attrs, handlers: seq<Handler>, lookups: seq<Lookup>, selected: set<Source>, h: Handler)
    requires h in handlers && h.blobField.Some?
    requires h.source !in selected || (exists l :: l in lookups && l.source == h.source && l.ran && !l.failed)
    requires forall i, j | 0 <= i < j < |lookups| :: lookups[i].source != lookups[j].source
    ensures var start := Prepared(row, handlers, lookups, selected, CompleteRescan);
            !Truthy(start, h.idField) && !Truthy(start, h.blobField.value)
  {
    AttemptedMeans(lookups, h.source);
    var attempted := Attempted(lookups);
    var k :| 0 <= k < |handlers| && handlers[k] == h;
    assert Clears(handlers[k], h.idField, attempted, selected) && Clears(handlers[k], h.blobField.value, attempted, selected);
    ResetIdsExactly(Seeded(row, CompleteRescan), handlers, attempted, selected, h.idField);
    ResetIdsExactly(Seeded(row, CompleteRescan), handlers, attempted, selected, h.blobField.value);
    hide ResetIds, CARRIED;
  }

  // ---- SteamGridDB's own fields ----

  /** Its id is the one it found; without one, a complete rescan that could ask it forgets the old
      id. Nothing but its id and the cover is ever touched, and a locked cover never is. */
  lemma SgdbMeans(attrs: Attrs, handlers: seq<Handler>, attempted: bool, complete: bool, id: Value, cover: Value,
                  locked: bool, p: Priorities, field: Field)
    ensures var after := SgdbApplied(attrs, handlers, attempted, complete, id, cover, locked, p);
            && ReadsAs(after, "sgdb_id", if id != "" then Some(id) else if complete && attempted then Some("") else None, attrs)
            && (id == "" || cover == "" || locked ==> ReadsAs(after, "url_cover", None, attrs))
            && (field != "sgdb_id" && field != "url_cover" ==> ReadsAs(after, field, None, attrs))
  {
    assert "sgdb_id" != "url_cover" by { assert "sgdb_id"[0] != "url_cover"[0]; }
    hide Ordered, WithCover;
  }
}
