/** One literal run for each promise that holds only under a condition. The conditions are in
    the modules named in the comments; further runs are beside them. */
module Counterexamples {
  import opened Common

  import A = Activity
  import AP = ActivityProofs
  import C = ConfigStore
  import CP = ConfigStoreProofs
  import MP = MemoryCardProofs
  import M = MemoryCards
  import MM = MetadataMerge
  import MMP = MetadataMergeProofs
  import N = Negotiation
  import NP = NegotiationProofs
  import P = Promotion
  import PP = PromotionProofs
  import PRR = PromotionRaceRuns
  import PR = PromotionRaces
  import S = SaveSync
  import SP = SaveSyncProofs
  import TP = TemplateProofs
  import T = Templates

  // ---- Negotiation: `NegotiationProofs.PlannedUploadAccepted` ----

  const NEWER_COPY := N.ClientSave(1, SP.SLOT, "core", "g [t1].srm", Some(S.Digest("two")), 5)
  const ITS_UPLOAD := S.Upload(Some("b"), 1, "core", SP.SLOT, "g [t2].srm", "two", false, false, 10)

  lemma FirstUploadAlone()
    ensures S.Valid(S.EMPTY) && SP.Run(S.EMPTY, [S.Add(SP.FIRST)]) == SP.AFTER_UPLOAD && S.Valid(SP.AFTER_UPLOAD)
  {
    SP.FirstUpload();
    hide S.AddStep, S.Valid;
    assert [S.Add(SP.FIRST)][1..] == [];
    assert SP.Run(SP.AFTER_UPLOAD, []) == SP.AFTER_UPLOAD;
  }

  /** After one device's upload, a second device that never synced the save is told to upload
      its newer copy, and that upload is refused. */
  lemma PlannedUploadIsRefused()
    ensures var s := SP.AFTER_UPLOAD;
            && S.Valid(S.EMPTY) && SP.Run(S.EMPTY, [S.Add(SP.FIRST)]) == s && S.Valid(s)
            && N.Negotiated([NP.Snapshot(0, s.rows[0])], NP.StampsOf(s, "b"), [NEWER_COPY])[0].action == S.UploadIt
            && S.Refused(s, ITS_UPLOAD)
  {
    FirstUploadAlone();
    PlannedUpload();
    NoStampRefuses();
    hide S.Valid, S.Refused, SP.Run, N.Negotiated;
  }

  lemma PlannedUpload()
    ensures var s := SP.AFTER_UPLOAD;
            N.Negotiated([NP.Snapshot(0, s.rows[0])], NP.StampsOf(s, "b"), [NEWER_COPY])[0].action == S.UploadIt
  {
    var s := SP.AFTER_UPLOAD;
    var row := NP.Snapshot(0, s.rows[0]);
    var rows, stamps := [row], NP.StampsOf(s, "b");
    assert rows[..0] == [] && N.Newest(rows, NEWER_COPY.Pairing()) == Some(row);
    assert 0 !in stamps;
    hide N.Newest, N.Missing, NP.StampsOf, NP.Snapshot;
    var ops := N.ClientOperations(rows, stamps, [NEWER_COPY]);
    assert ops[0] == N.ClientOperation(Some(row), stamps, NEWER_COPY);
    assert ops[0].action == S.UploadIt by { assert row == NP.Snapshot(0, s.rows[0]); }
    assert N.Negotiated(rows, stamps, [NEWER_COPY])[0] == ops[0];
  }

  lemma NoStampRefuses()
    ensures S.Valid(SP.AFTER_UPLOAD) && S.Refused(SP.AFTER_UPLOAD, ITS_UPLOAD)
  {
    SP.FirstUpload();
    assert S.SlotIds(SP.AFTER_UPLOAD.rows, 1, SP.SLOT) == {0};
    hide S.AddStep;
  }

  // ---- Save files: `SaveSyncSharing.BytesAndRowsAgreeExactly` ----

  const SAME_BYTES := SP.FIRST.(slot := Some("other"), overwrite := true)

  lemma TwoRowsOneFile() returns (s: S.State)
    ensures S.Valid(SP.AFTER_UPLOAD) && s == S.AddStep(SP.AFTER_UPLOAD, SAME_BYTES) && S.Valid(s)
    ensures 0 in s.rows && 1 in s.rows && s.rows[0].Location() == s.rows[1].Location()
    ensures s.rows[1].hash == S.Digest("one")
  {
    SP.FirstUpload();
    var a := SP.AFTER_UPLOAD;
    assert S.Matching(a.rows, 1, SAME_BYTES.name, SAME_BYTES.slot) == {};
    assert S.At(a.rows, SAME_BYTES.Target()) == {0} && Least({0}) == 0;
    SP.ValidKept(a, S.Add(SAME_BYTES));
    s := S.AddStep(a, SAME_BYTES);
  }

  /** The same bytes uploaded to two slots under one name share a file, and deleting one of the
      two saves takes the other's bytes. */
  lemma DeletingOneTakesTheOther()
    ensures S.Valid(SP.AFTER_UPLOAD) && S.Valid(S.AddStep(SP.AFTER_UPLOAD, SAME_BYTES))
    ensures var t := S.Step(S.AddStep(SP.AFTER_UPLOAD, SAME_BYTES), S.Delete(0));
            1 in t.rows && t.rows[1].Location() !in t.files
  {
    var s := TwoRowsOneFile();
    hide S.AddStep, S.Valid;
    var t := S.Remove(s, {0});
    assert s.rows[0].Location() in S.Locations(s.rows, {0});
  }

  const REWRITE := S.Put(None, 0, Some("two"))
  const OPTIMISTIC := S.Download(Some("b"), 1, true, true)

  /** New content for one of them reaches the other's file but not its row: a device served that
      row is stamped current for content the row does not speak of. */
  lemma ServedTheOthersBytes()
    ensures S.Valid(SP.AFTER_UPLOAD) && S.Valid(S.AddStep(SP.AFTER_UPLOAD, SAME_BYTES))
    ensures var t := S.Step(S.AddStep(SP.AFTER_UPLOAD, SAME_BYTES), REWRITE);
            && S.Valid(t) && 1 in t.rows
            && var u := S.Step(t, OPTIMISTIC); 1 in u.rows && S.Current(u, "b", 1) && !S.Holds(u, "b", 1)
  {
    var s := TwoRowsOneFile();
    SP.ValidKept(s, REWRITE);
    hide S.AddStep, S.Valid;
    ServedAfterRewrite(s);
  }

  lemma ServedAfterRewrite(s: S.State)
    requires S.Valid(s) && 0 in s.rows && 1 in s.rows && s.rows[0].Location() == s.rows[1].Location()
    requires s.rows[1].hash == S.Digest("one") && S.Valid(S.Step(s, REWRITE))
    ensures var t := S.Step(s, REWRITE);
            1 in t.rows && var u := S.Step(t, OPTIMISTIC); 1 in u.rows && S.Current(u, "b", 1) && !S.Holds(u, "b", 1)
  {
    hide S.Valid;
    assert "one"[0] != "two"[0];
  }

  // ---- Promotion: `PromotionProofs.RowsFollowBytes`, `ExtensionlessReturnExactly`, and the
  // ---- races of `PromotionRaceRuns` ----

  function Shelf(dir: string, name: string, bytes: string): P.Disk {
    map[[] := P.Dir, [dir] := P.Dir, [dir, name] := P.File(bytes)]
  }

  const SHELF := Shelf("gba", "g.gba", "bytes")
  const CARTRIDGE := P.Rom(["gba"], "g.gba", "g", [P.RomFile(["gba"], "g.gba"), P.RomFile(["gba"], "g.sav")])
  const BARE_SHELF := Shelf("gba", "g", "bytes")
  const BARE := P.Rom(["gba"], "g", "g", [P.RomFile(["gba"], "g")])

  /** A library of one platform folder with one file is ready for its promotion. */
  lemma ShelfIsReady(dir: string, name: string, stem: string, files: seq<P.RomFile>, bytes: string)
    requires stem != "" && stem != "."
    ensures PP.Ready(Shelf(dir, name, bytes), P.Rom([dir], name, stem, files), bytes)
  {
    var fs, rom := Shelf(dir, name, bytes), P.Rom([dir], name, stem, files);
    assert P.Parent([dir, name]) == [dir] && P.Parent([dir]) == [];
    assert rom.Origin() == [dir, name] && rom.Dest() == [dir, stem] && [dir, stem][1] == stem && [dir, name][1] == name;
    assert rom.Staged() == [dir, P.STAGE_PREFIX + name] && |P.STAGE_PREFIX + name| > |name|;
    assert [dir, P.STAGE_PREFIX + name][1] != [dir, name][1];
  }

  lemma ShelvesAreReady()
    ensures PP.Ready(SHELF, CARTRIDGE, "bytes") && !CARTRIDGE.Extensionless() && CARTRIDGE.SimpleSingleFile()
    ensures PP.Ready(BARE_SHELF, BARE, "bytes") && BARE.Extensionless() && BARE.SimpleSingleFile()
  {
    TwoTopLevel();
    ShelfIsReady("gba", "g.gba", "g", CARTRIDGE.files, "bytes");
    ShelfIsReady("gba", "g", "g", BARE.files, "bytes");
    hide PP.Ready, Shelf;
  }

  lemma TwoTopLevel()
    ensures CARTRIDGE.TopLevel(2) == 1 && BARE.TopLevel(1) == 1
  {
    assert ["gba"] + ["g.gba"] == CARTRIDGE.FullPath() && ["gba"] + ["g.sav"] != CARTRIDGE.FullPath() by {
      assert (["gba"] + ["g.sav"])[1] == "g.sav" && CARTRIDGE.FullPath()[1] == "g.gba";
      assert "g.sav"[2] != "g.gba"[2];
    }
    assert CARTRIDGE.TopLevel(0) == 0 && BARE.TopLevel(0) == 0;
    assert CARTRIDGE.TopLevel(1) == 1;
    assert |["gba"]| != |CARTRIDGE.FullPath()|;
    assert ["gba"] + ["g"] == BARE.FullPath();
  }

  /** A ROM with a save file recorded beside it is promoted, and the save's row then names a
      file that does not exist. */
  lemma RowBesideIsLeftBehind()
    ensures var (fs, rom, result) := P.Promote(SHELF, CARTRIDGE, "g", {});
            result == P.Promoted && !PP.RowsBacked(fs, rom)
  {
    ShelvesAreReady();
    PP.Endings(SHELF, CARTRIDGE, "g", "bytes", {});
    PP.RowsFollowBytes(SHELF, CARTRIDGE, "g", "bytes", {});
    hide PP.Ready, P.Promote, PP.RowsBacked;
  }

  function SharedFolder(dir: string, name: string, other: string, bytes: string, theirs: string): P.Disk {
    map[[] := P.Dir, [dir] := P.Dir, [dir, name] := P.Dir, [dir, name, name] := P.File(bytes),
        [dir, name, other] := P.File(theirs)]
  }

  lemma SharedIsInFolder(dir: string, name: string, other: string, bytes: string, theirs: string, files: seq<P.RomFile>)
    requires name != "" && name != "." && other != name
    ensures var fs, rom := SharedFolder(dir, name, other, bytes, theirs), P.Rom([dir], name, name, files);
            PP.InFolder(fs, rom, bytes) && !PP.Alone(fs, rom)
  {
    var fs, rom := SharedFolder(dir, name, other, bytes, theirs), P.Rom([dir], name, name, files);
    assert rom.Origin() == [dir, name] == rom.Dest() && rom.Final() == [dir, name, name];
    assert rom.Staged() == [dir, P.STAGE_PREFIX + name] && |P.STAGE_PREFIX + name| > |name|;
    assert P.Parent([dir, name, name]) == [dir, name] && P.Parent([dir, name, other]) == [dir, name];
    assert P.Parent([dir, name]) == [dir] && P.Parent([dir]) == [];
    assert [dir, name, other][2] == other && [dir, name, name][2] == name && [dir, name][1] == name;
    assert [dir, P.STAGE_PREFIX + name][1] != [dir, name][1];
    assert P.Below(rom.Origin(), [dir, name, other]);
  }

  /** Somebody has put a file into the new folder when an extensionless promotion is undone:
      the ROM does not come back to its place. */
  lemma SharedFolderIsNotUndone()
    ensures var fs := SharedFolder("gba", "g", "other", "bytes", "theirs");
            !PP.BytesAt(P.Restore(fs, BARE, true, {}), BARE.Origin(), "bytes")
  {
    assert "other"[0] != "g"[0];
    SharedIsInFolder("gba", "g", "other", "bytes", "theirs", BARE.files);
    hide P.Restore, PP.InFolder, PP.Alone, SharedFolder, PP.BytesAt;
    PP.ExtensionlessReturnExactly(SharedFolder("gba", "g", "other", "bytes", "theirs"), BARE, "bytes");
  }

  /** On these two shelves, two workers lose the bytes and bury the file. */
  lemma RacesOnTheShelf()
    ensures !PP.HeldOnce(PR.Run(PR.Start(SHELF, 2), CARTRIDGE, PRR.LOSING).fs, CARTRIDGE, "bytes")
    ensures !PP.HeldOnce(PR.Run(PR.Start(BARE_SHELF, 2), BARE, PRR.BURYING).fs, BARE, "bytes")
  {
    ShelvesAreReady();
    PRR.TwoStepDropLosesTheBytes(SHELF, CARTRIDGE, "bytes");
    PRR.SecondWorkerBuriesTheFile(BARE_SHELF, BARE, "bytes");
    hide PP.Ready, PR.Run, PR.Start;
  }

  // ---- Memory cards: `MemoryCardProofs.ClaimKeepsExactly`, `PlayedCardSurvivesExactly` ----

  const FOUND := M.World(Some("x"), None, map[], 0, None)
  const ADOPTING := M.Claim(None, Some(M.Adopt), true, true, false, true)
  const PLAYING := M.Claim(None, None, true, true, true, true)

  /** A card found on the container is adopted into a new card, the push fails, and the next
      player's claim wipes it. */
  lemma AdoptedThenWiped()
    ensures MP.Sane(FOUND) && M.WellFormed(FOUND, ADOPTING)
    ensures var w1 := M.ClaimStep(FOUND, ADOPTING).0;
            && M.WellFormed(w1, PLAYING)
            && var w2 := M.ClaimStep(w1, PLAYING).0; w2.slot.None? && !MP.InStore(w2, "x")
  {
    assert MP.Forgetful(FOUND, ADOPTING);
    MP.ForgottenCardIsLost(FOUND, ADOPTING, PLAYING, "x");
    hide M.ClaimStep;
  }

  const RECORDED := FOUND.(cards := map[0 := [M.Version("x", false)]], nextCard := 1)
  const REMOUNTING := M.Claim(Some(0), Some(M.Adopt), true, true, true, true)

  /** The card is on record as a version whose archive is gone: adopting it stores nothing and
      blanks the container. */
  lemma RecordedThenBlanked()
    ensures M.WellFormed(RECORDED, REMOUNTING)
    ensures var (w, outcome) := M.ClaimStep(RECORDED, REMOUNTING);
            outcome == M.Launched(0) && w.slot.None? && !MP.InStore(w, "x") && w.decision == Some(M.Adopt)
  {
    assert M.InHistory(RECORDED.cards[0], "x") by { assert RECORDED.cards[0][0].content == "x"; }
    var w := M.ClaimStep(RECORDED, REMOUNTING).0;
    assert w.cards == RECORDED.cards;
    forall id | id in w.cards ensures !MP.OnFile(w.cards[id], "x") {
      forall i | 0 <= i < |w.cards[id]| ensures w.cards[id][i] != M.Version("x", true) {}
    }
  }

  const RUNNING := M.World(Some("x"), Some(M.Discard), map[0 := []], 1, Some(0))

  /** A session ends while its card cannot be read, and the next player's claim wipes it. */
  lemma UncapturedThenWiped()
    ensures MP.Sane(RUNNING) && M.WellFormed(M.Finish(RUNNING, false, true, true), PLAYING)
    ensures var w := M.ClaimStep(M.Finish(RUNNING, false, true, true), PLAYING).0;
            w.slot != Some("x") && !MP.InStore(w, "x")
  {
    assert !MP.InStore(RUNNING, "x");
    MP.PlayedCardSurvivesExactly(RUNNING, false, true, true, PLAYING, "x");
    hide M.ClaimStep;
  }

  // ---- Layouts: `TemplateProofs.RoundTrip` ----

  const NESTED := T.Structure(["psx"], [])

  lemma NestedPrints()
    ensures TP.Print(NESTED, "{platform}") == "psx/{platform}/{game}"
  {
    hide TP.FolderName;
    assert TP.PrintSections(NESTED, "{platform}") == ["psx", "{platform}", "{game}"];
    assert ["psx", "{platform}", "{game}"][..2] == ["psx", "{platform}"] && ["psx", "{platform}"][..1] == ["psx"];
    assert T.Join(["psx", "{platform}"]) == "psx/{platform}";
  }

  /** The layout `psx/{platform}/{game}`, read for the platform "psx", is another layout. */
  lemma NestedLayoutIsMisread()
    ensures TP.WellFormed(NESTED) && TP.Print(NESTED, "{platform}") == "psx/{platform}/{game}"
    ensures T.ParseStructure("psx/{platform}/{game}", Some("psx")) != T.Ok(NESTED)
  {
    NestedPrints();
    assert TP.WellFormed(NESTED) by { assert '/' !in "psx" && '{' !in "psx" && '}' !in "psx"; }
    hide T.ParseStructure, TP.Print, TP.WellFormed;
    TP.RoundTrip(NESTED, Some("psx"));
  }

  // ---- Configuration: `ConfigStoreProofs.ChangeThenReload` ----

  const PLAIN_DEFAULTS := map p | p in C.PLAINS :: C.DefaultOf(p)
  const FRESH := C.Config(C.Six([], [], [], [], [], []), PLAIN_DEFAULTS, map[], map[], map[], map[], map[],
                          None, None, None, "prefer_rom_tags", [], "box2d", "screenshot", false, [])

  /** The file written from settings that say nothing. */
  const FRESH_FILE := C.Save(FRESH)

  lemma DefaultAccepted(p: C.Plain)
    ensures p in C.PLAINS && C.Accepts(p, C.DefaultOf(p))
  {
  }

  lemma NothingLowered<V>(m: map<string, V>)
    requires m == map[]
    ensures C.Lowered(m) == map[]
  {
    assert C.LowerAll(m.Keys) == {};
  }

  lemma FreshFileLoads()
    ensures C.Load(FRESH_FILE).Some? && C.Load(FRESH_FILE).value.bindings == map[]
  {
    hide C.DefaultOf, C.Accepts, C.Save, C.Load, C.Lowered, C.Sorted, C.PLAINS;
    forall p | p in C.PLAINS ensures C.Accepts(p, C.PlainAt(FRESH, p)) { DefaultAccepted(p); }
    NothingLowered(FRESH.bindings);
    NothingLowered(FRESH.structure);
    assert CP.Complete(FRESH) && CP.Loadable(FRESH);
    CP.SaveThenLoad(FRESH);
  }

  /** Binding a folder to an empty platform is written, and the next start refuses the file. */
  lemma EmptyBindingStopsTheStart()
    ensures C.Load(FRESH_FILE).Some?
    ensures var c := C.Changed(C.Load(FRESH_FILE).value, C.AddBinding("snes", ""));
            c.Some? && C.Load(C.Save(c.value)) == None
  {
    hide C.Load, C.Save, CP.AtRest;
    FreshFileLoads();
    CP.LoadedIsAtRest(FRESH_FILE);
    CP.ChangeThenReload(C.Load(FRESH_FILE).value, C.AddBinding("snes", ""));
  }

  /** A default exclusion taken off the list is back on it after the next start. */
  lemma DefaultExclusionReturns()
    ensures C.Load(FRESH_FILE).Some?
    ensures var c := C.Load(FRESH_FILE).value;
            var changed := C.Changed(c, C.RemoveExclusion(C.ExPlatforms, "assets"));
            && changed.Some? && "assets" !in changed.value.exclusions.platforms
            && C.Load(C.Save(changed.value)) == Some(c) && "assets" in c.exclusions.platforms
  {
    hide C.Load, C.Save, CP.AtRest, C.Sorted;
    FreshFileLoads();
    CP.LoadedIsAtRest(FRESH_FILE);
    var c := C.Load(FRESH_FILE).value;
    CP.ChangeThenReload(c, C.RemoveExclusion(C.ExPlatforms, "assets"));
    CP.ListAtRest(c, C.ExPlatforms);
    CP.SettledNoRepeats(C.ExPlatforms, c.exclusions.platforms);
    CP.RemovedOnce(c.exclusions.platforms, "assets");
    CP.FoldedInto(C.ExPlatforms, c.exclusions.platforms);
  }

  // ---- Activity: `ActivityProofs.EntryReturnedExactly`, `OnlyOwnEntriesExactly` ----

  const STREAMED := A.Entry(1, "http://box:8000", 7, 0)

  /** A game streamed from a container is playing, and its ROM is given nobody. */
  lemma StreamedGameIsNotListed()
    ensures var s := A.Run(A.EMPTY, [A.Beat(STREAMED)]);
            A.Live(s, STREAMED.Key()) == Some(STREAMED) && !A.ReturnedFor(s, 7, STREAMED)
  {
    assert [A.Beat(STREAMED)][1..] == [];
    assert A.Run(A.Step(A.EMPTY, A.Beat(STREAMED)), []) == A.Step(A.EMPTY, A.Beat(STREAMED));
    assert STREAMED.device[4] == ':';
    AP.EntryReturnedExactly([A.Beat(STREAMED)], STREAMED.Key());
  }

  const FIRST_GAME := A.Entry(1, "deck", 7, 0)
  const NEXT_GAME := A.Entry(1, "deck", 8, 10)

  lemma TwoSteps(s: A.State, first: A.Event, second: A.Event)
    ensures A.Run(s, [first, second]) == A.Step(A.Step(s, first), second)
  {
    hide A.Step;
    assert [first, second][1..] == [second] && [second][1..] == [];
    assert A.Run(A.Step(A.Step(s, first), second), []) == A.Step(A.Step(s, first), second);
    assert A.Run(A.Step(s, first), [second]) == A.Run(A.Step(A.Step(s, first), second), []);
  }

  lemma NoTimePasses(s: A.State)
    ensures A.Step(s, A.Tick(0)) == s
  {
  }

  /** A player who goes on to another game is returned for both. */
  lemma PlayerIsListedTwice()
    ensures var s := A.Run(A.EMPTY, [A.Beat(FIRST_GAME), A.Beat(NEXT_GAME)]);
            A.ReturnedFor(s, 7, NEXT_GAME) && A.ReturnedFor(s, 8, NEXT_GAME)
  {
    assert FIRST_GAME.device == "deck" && ':' !in "deck";
    hide A.ReturnedFor, A.Step, A.Run;
    AP.MovedEntryStillListed(A.EMPTY, FIRST_GAME, NEXT_GAME, 0);
    TwoSteps(A.EMPTY, A.Beat(FIRST_GAME), A.Beat(NEXT_GAME));
    NoTimePasses(A.Run(A.EMPTY, [A.Beat(FIRST_GAME), A.Beat(NEXT_GAME)]));
  }

  // ---- Metadata: `MetadataMergeProofs.HandedOverExactly` ----

  const PRODUCTION: MM.Attrs := map["name" := "Second Reality", "igdb_id" := "1289", "pouet_id" := "63"]
  const MATCHING := MM.Handler("igdb", "igdb_id", Some("igdb_metadata"), map["igdb_id" := "9999", "name" := "A Real Game"])
  const UNREACHABLE := MM.Handler("pouet", "pouet_id", Some("pouet_metadata"), map[])
  const PROVIDERS := [MATCHING, UNREACHABLE]
  const LOOKUPS := [MM.Lookup("igdb", true, false), MM.Lookup("pouet", true, true)]
  const BOTH: set<MM.Source> := {"igdb", "pouet"}
  const IGDB_FIRST := MM.Priorities(["igdb", "pouet"], [], map[])

  lemma OnlyTheCatalogAnswers()
    ensures MM.Available(PROVIDERS) == ["igdb"]
  {
    assert PROVIDERS[0] == MATCHING && PROVIDERS[1..] == [UNREACHABLE] && [UNREACHABLE][1..] == [];
    assert MM.Truthy(MATCHING.data, MATCHING.idField) by { assert MATCHING.data["igdb_id"] == "9999" != ""; }
    assert !MM.Truthy(UNREACHABLE.data, UNREACHABLE.idField);
    hide MM.Truthy, MATCHING, UNREACHABLE, PROVIDERS;
    assert MM.Available([]) == [];
    assert MM.Available([UNREACHABLE]) == [];
    assert MATCHING.source == "igdb" by { CatalogIsIgdb(); }
    assert MM.Available(PROVIDERS) == ["igdb"] + MM.Available([UNREACHABLE]);
  }

  lemma CatalogIsIgdb()
    ensures MATCHING.source == "igdb"
  {
  }

  lemma OnlyTheCatalogApplies()
    ensures MM.Applied(PRODUCTION, PROVIDERS, LOOKUPS, BOTH, MM.CompleteRescan) == ["igdb"]
  {
    OnlyTheCatalogAnswers();
    assert forall h | h in PROVIDERS && h.source in MM.SCENE_METADATA_SOURCES :: h == UNREACHABLE;
    assert !MMP.SceneAnswered(PROVIDERS);
    MMP.LockedExactly(PRODUCTION, PROVIDERS, LOOKUPS, BOTH, MM.CompleteRescan, UNREACHABLE);
    hide MM.Prepared, MM.SceneLocked;
    assert MM.Filter(["igdb"], MM.SCENE_METADATA_SOURCES) == [] by { assert ["igdb"][1..] == []; }
  }

  /** A known Pouët production is rescanned completely while Pouët cannot be reached and a catalog
      has a similar title: it keeps its Pouët id and takes the catalog's id and name. */
  lemma ProductionTakesTheCatalogsName()
    ensures var row := MM.Rescanned(PRODUCTION, PROVIDERS, LOOKUPS, BOTH, MM.CompleteRescan, IGDB_FIRST);
            && MMP.ReadsAs(row, "name", Some("A Real Game"), PRODUCTION)
            && MMP.ReadsAs(row, "igdb_id", Some("9999"), PRODUCTION)
            && MMP.ReadsAs(row, "pouet_id", None, PRODUCTION)
  {
    OnlyTheCatalogApplies();
    CatalogComesFirst();
    hide MM.Applied, MM.Rescanned, MM.Ordered;
    assert LOOKUPS[0].source != LOOKUPS[1].source;
    MMP.RescanForgetsWithReason(PRODUCTION, PROVIDERS, LOOKUPS, BOTH, IGDB_FIRST, MATCHING);
    MMP.RescanForgetsWithReason(PRODUCTION, PROVIDERS, LOOKUPS, BOTH, IGDB_FIRST, UNREACHABLE);
    CatalogNames();
  }

  lemma CatalogComesFirst()
    ensures MM.Ordered(["igdb"], IGDB_FIRST, "metadata") == ["igdb"]
    ensures forall field :: MMP.FirstTruthy(PROVIDERS, ["igdb"], field)
                            == if MM.Truthy(MATCHING.data, field) then Some(MATCHING.data[field]) else None
  {
    var present := Members(["igdb"]);
    assert ["igdb"][1..] == [] && ["pouet"][1..] == [] && ["igdb", "pouet"][1..] == ["pouet"];
    assert MM.Filter(["pouet"], present) == [] && MM.Filter(["igdb", "pouet"], present) == ["igdb"];
    assert MM.Filter(["igdb"], present - present) == [];
    assert forall field :: MMP.FirstTruthy(PROVIDERS, [], field) == None;
  }

  lemma CatalogNames()
    ensures MMP.ReadsAs(MM.Rescanned(PRODUCTION, PROVIDERS, LOOKUPS, BOTH, MM.CompleteRescan, IGDB_FIRST), "name",
                        Some("A Real Game"), PRODUCTION)
  {
    OnlyTheCatalogApplies();
    CatalogComesFirst();
    hide MM.Applied, MM.Prepared, MM.Merged, MM.Ordered;
    MMP.FirstByPriority(MM.Prepared(PRODUCTION, PROVIDERS, LOOKUPS, BOTH, MM.CompleteRescan), PROVIDERS, ["igdb"],
                        IGDB_FIRST, "name");
  }
}
