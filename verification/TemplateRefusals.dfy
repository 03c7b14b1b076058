/** Why a layout template is refused: the reason that is given is true of it. */
module TemplateRefusals {
  import opened Common
  import opened Templates
  import opened TemplateProofs
  import PL = PlatformLayouts

  // ---- The sections as they are written ----

  /** A brace that is not one macro around the whole section. */
  predicate Misplaced(section: string) { ('{' in section || '}' in section) && !PL.Braced(section) }

  predicate Encloses(section: string, name: string) { PL.Braced(section) && Strip(PL.Inner(section)) == name }

  predicate WellWritten(section: string) {
    !Misplaced(section) && !Encloses(section, "") && !Encloses(section, "library")
  }

  predicate IsPlatform(section: string, slug: Option<string>) {
    Encloses(section, "platform") || (slug == Some(section) && '{' !in section && '}' !in section)
  }

  lemma KindMeans(section: string, slug: Option<string>)
    ensures Classify(section) == Bad(EmptyMacro) <==> Encloses(section, "")
    ensures Classify(section) == Bad(LibraryReserved) <==> Encloses(section, "library")
    ensures Classify(section) == Bad(MalformedMacro) <==> Misplaced(section)
    ensures Classify(section).Bad? <==> !WellWritten(section)
    ensures Classify(section).Macro? <==> PL.Braced(section) && WellWritten(section)
    ensures Classify(section) == Macro(PLATFORM) <==> Encloses(section, "platform")
    ensures Classify(section) == Macro(GAME) <==> Encloses(section, "game")
    ensures NamesPlatform(section, slug) <==> IsPlatform(section, slug)
  {
    PL.SectionMeans(section);
    hide Strip;
  }

  // ---- The scan for the platform ----

  predicate Has(sections: seq<string>, kind: Kind) { exists i :: 0 <= i < |sections| && Classify(sections[i]) == kind }

  predicate MacroThenPlatform(sections: seq<string>, slug: Option<string>) {
    exists i, j :: 0 <= i < j < |sections| && Classify(sections[i]).Macro? && NamesPlatform(sections[j], slug)
  }

  predicate NoneNames(sections: seq<string>, slug: Option<string>) {
    forall i | 0 <= i < |sections| :: !Classify(sections[i]).Bad? && !NamesPlatform(sections[i], slug)
  }

  lemma {:induction false} SplitFails(before: seq<string>, rest: seq<string>, slug: Option<string>)
    requires SplitAtPlatform(before, rest, slug).Err?
    requires forall i | 0 <= i < |before| :: !Classify(before[i]).Bad?
    ensures var e := SplitAtPlatform(before, rest, slug).error;
            match e
            case NoPlatform => NoneNames(rest, slug)
            case MacroBeforePlatform => MacroThenPlatform(before + rest, slug)
            case _ => Has(rest, Bad(e))
    decreases |rest|
  {
    if rest != [] && Classify(rest[0]).Bad? {
      BadIs(rest[0]);
      assert Has(rest, Classify(rest[0]));
    } else if rest != [] && NamesPlatform(rest[0], slug) {
      var i :| 0 <= i < |before| && !Classify(before[i]).Folder?;
      assert (before + rest)[i] == before[i] && (before + rest)[|before|] == rest[0];
    } else if rest != [] {
      var next := before + [rest[0]];
      hide Classify, NamesPlatform;
      forall i | 0 <= i < |next| ensures !Classify(next[i]).Bad? { if i < |before| { assert next[i] == before[i]; } }
      SplitFails(next, rest[1..], slug);
      assert next + rest[1..] == before + rest;
      var e := SplitAtPlatform(before, rest, slug).error;
      if i :| 0 <= i < |rest[1..]| && Classify(rest[1..][i]) == Bad(e) { assert Classify(rest[i + 1]) == Bad(e); }
      forall i | 0 <= i < |rest| && NoneNames(rest[1..], slug)
        ensures !Classify(rest[i]).Bad? && !NamesPlatform(rest[i], slug)
      {
        if i > 0 { assert rest[i] == rest[1..][i - 1]; }
      }
    }
  }

  lemma BadIs(section: string)
    requires Classify(section).Bad?
    ensures Classify(section).error in {EmptyMacro, LibraryReserved, MalformedMacro}
  {
  }

  lemma {:induction false} LevelsFail(sections: seq<string>)
    requires ParseLevels(sections).Err?
    ensures var e := ParseLevels(sections).error;
            if e == RepeatedMacro then Has(sections, Macro(PLATFORM)) || Has(sections, Macro(GAME)) else Has(sections, Bad(e))
  {
    var first := Classify(sections[0]);
    if first.Bad? {
      BadIs(sections[0]);
      assert Has(sections, first);
    } else if first == Macro(PLATFORM) || first == Macro(GAME) {
      assert Has(sections, first);
    } else {
      var rest := sections[1..];
      LevelsFail(rest);
      hide Classify;
      forall kind | Has(rest, kind) ensures Has(sections, kind) {
        var i :| 0 <= i < |rest| && Classify(rest[i]) == kind;
        assert Classify(sections[i + 1]) == kind;
      }
    }
  }

  // ---- The reasons ----

  /** What a refusal says of the sections: the last one must be the game, and the others are
      searched from the front. */
  predicate Holds(e: Error, sections: seq<string>, slug: Option<string>) {
    match e
    case EmptyTemplate => sections == []
    case NotAFolderName => "." in sections || ".." in sections
    case EmptyMacro => exists i :: 0 <= i < |sections| && Encloses(sections[i], "")
    case LibraryReserved => exists i :: 0 <= i < |sections| && Encloses(sections[i], "library")
    case MalformedMacro => exists i :: 0 <= i < |sections| && Misplaced(sections[i])
    case MustEndWithGame =>
      sections != [] && WellWritten(sections[|sections| - 1]) && !Encloses(sections[|sections| - 1], "game")
    case NoPlatform => forall i | 0 <= i < |sections| - 1 :: WellWritten(sections[i]) && !IsPlatform(sections[i], slug)
    case MacroBeforePlatform =>
      exists i, j :: 0 <= i < j < |sections| - 1 && PL.Braced(sections[i]) && WellWritten(sections[i]) && IsPlatform(sections[j], slug)
    case RepeatedMacro =>
      exists i, j :: 0 <= i < j < |sections| - 1 && IsPlatform(sections[i], slug)
                     && (Encloses(sections[j], "platform") || Encloses(sections[j], "game"))
    case FirmwareMacro => false
  }

  lemma KindsMean(sections: seq<string>, slug: Option<string>)
    ensures forall i | 0 <= i < |sections| ::
              && (Classify(sections[i]) == Bad(EmptyMacro) <==> Encloses(sections[i], ""))
              && (Classify(sections[i]) == Bad(LibraryReserved) <==> Encloses(sections[i], "library"))
              && (Classify(sections[i]) == Bad(MalformedMacro) <==> Misplaced(sections[i]))
              && (Classify(sections[i]).Bad? <==> !WellWritten(sections[i]))
              && (Classify(sections[i]).Macro? <==> PL.Braced(sections[i]) && WellWritten(sections[i]))
              && (Classify(sections[i]) == Macro(PLATFORM) <==> Encloses(sections[i], "platform"))
              && (Classify(sections[i]) == Macro(GAME) <==> Encloses(sections[i], "game"))
              && (NamesPlatform(sections[i], slug) <==> IsPlatform(sections[i], slug))
  {
    hide Classify, Encloses, Misplaced, WellWritten, NamesPlatform, IsPlatform;
    forall i | 0 <= i < |sections| { KindMeans(sections[i], slug); }
  }

  /** What the search through all sections but the last reports is true. */
  lemma InnerReason(sections: seq<string>, slug: Option<string>)
    requires sections != [] && SplitAtPlatform([], sections[..|sections| - 1], slug).Err?
    ensures Holds(SplitAtPlatform([], sections[..|sections| - 1], slug).error, sections, slug)
  {
    hide Has, MacroThenPlatform, NoneNames, Holds, SplitAtPlatform;
    var inner := sections[..|sections| - 1];
    var e := SplitAtPlatform([], inner, slug).error;
    assert [] + inner == inner;
    SplitFails([], inner, slug);
    ErrorIsBad(inner, e);
    if Has(inner, Bad(e)) { BadReason(sections, slug, e); } else { OrderReason(sections, slug, e); }
  }

  lemma BadReason(sections: seq<string>, slug: Option<string>, e: Error)
    requires sections != [] && Has(sections[..|sections| - 1], Bad(e)) && e in {EmptyMacro, LibraryReserved, MalformedMacro}
    ensures Holds(e, sections, slug)
  {
    hide Classify, Encloses, Misplaced, WellWritten, NamesPlatform, IsPlatform;
    var inner := sections[..|sections| - 1];
    var i :| 0 <= i < |inner| && Classify(inner[i]) == Bad(e);
    assert inner[i] == sections[i];
    KindMeans(sections[i], slug);
  }

  lemma OrderReason(sections: seq<string>, slug: Option<string>, e: Error)
    requires sections != []
    requires var inner := sections[..|sections| - 1];
             (e == NoPlatform && NoneNames(inner, slug)) || (e == MacroBeforePlatform && MacroThenPlatform(inner, slug))
    ensures Holds(e, sections, slug)
  {
    hide Classify, Encloses, Misplaced, WellWritten, NamesPlatform, IsPlatform, PL.Braced;
    var inner := sections[..|sections| - 1];
    assert forall i | 0 <= i < |inner| :: inner[i] == sections[i];
    KindsMean(sections, slug);
  }

  lemma LevelReason(sections: seq<string>, slug: Option<string>, p: nat)
    requires p < |sections| - 1 && NamesPlatform(sections[p], slug) && ParseLevels(sections[p + 1..|sections| - 1]).Err?
    ensures Holds(ParseLevels(sections[p + 1..|sections| - 1]).error, sections, slug)
  {
    hide Classify, Encloses, Misplaced, WellWritten, NamesPlatform, IsPlatform, ParseLevels;
    var after := sections[p + 1..|sections| - 1];
    assert forall j | 0 <= j < |after| :: after[j] == sections[p + 1 + j];
    KindsMean(sections, slug);
    LevelsFail(after);
    ErrorIsBad(after, ParseLevels(after).error);
  }

  lemma ErrorIsBad(sections: seq<string>, e: Error)
    ensures Has(sections, Bad(e)) ==> e in {EmptyMacro, LibraryReserved, MalformedMacro}
  {
    if i :| 0 <= i < |sections| && Classify(sections[i]) == Bad(e) { BadIs(sections[i]); }
  }

  lemma LastReason(sections: seq<string>, slug: Option<string>)
    requires sections != [] && Classify(sections[|sections| - 1]) != Macro(GAME)
    ensures var last := Classify(sections[|sections| - 1]);
            Holds(if last.Bad? then last.error else MustEndWithGame, sections, slug)
  {
    hide Classify, Encloses, Misplaced, WellWritten, NamesPlatform, IsPlatform;
    KindsMean(sections, slug);
    if Classify(sections[|sections| - 1]).Bad? { BadIs(sections[|sections| - 1]); }
  }

  /** What comes after a checked template's sections have been taken. */
  lemma CheckedParse(template: string, slug: Option<string>)
    requires CheckedSections(template).Ok? && ParseStructure(template, slug).Err?
    ensures var sections, e := Sections(template), ParseStructure(template, slug).error;
            && sections != []
            && var last, split := Classify(sections[|sections| - 1]), SplitAtPlatform([], sections[..|sections| - 1], slug);
               if last != Macro(GAME) then e == if last.Bad? then last.error else MustEndWithGame
               else if split.Err? then e == split.error
               else ParseLevels(split.value.1).Err? && e == ParseLevels(split.value.1).error
  {
    hide Sections, Classify, SplitAtPlatform, ParseLevels;
  }

  /** A template is refused for a reason that is true of it. */
  lemma ReasonIsTrue(template: string, slug: Option<string>)
    requires ParseStructure(template, slug).Err?
    ensures Holds(ParseStructure(template, slug).error, Sections(template), slug)
  {
    hide Sections, Classify, SplitAtPlatform, ParseLevels, NamesPlatform;
    var sections := Sections(template);
    if CheckedSections(template).Ok? {
      CheckedParse(template, slug);
      hide Holds, ParseStructure, CheckedSections;
      var inner := sections[..|sections| - 1];
      if Classify(sections[|sections| - 1]) != Macro(GAME) {
        LastReason(sections, slug);
      } else if SplitAtPlatform([], inner, slug).Err? {
        InnerReason(sections, slug);
      } else {
        var p := SplitMeans([], inner, slug);
        SplitFinds([], inner, p, slug);
        assert inner[p + 1..] == sections[p + 1..|sections| - 1] && inner[p] == sections[p];
        LevelReason(sections, slug, p);
      }
    }
  }
}
