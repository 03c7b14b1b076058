/** The names packages of one ROM are shown and downloaded under. */
module PackageNames {
  import opened Common

  datatype Category = Game | Dlc | Update | Patch | Demo | Uncategorized | Other

  function Label(c: Category): Option<string> {
    match c
    case Game => Some("Game")
    case Dlc => Some("DLC")
    case Update => Some("Update")
    case Patch => Some("Patch")
    case Demo => Some("Demo")
    case Uncategorized => None
    case Other => None
  }

  datatype File = File(id: nat, category: Category, stem: string)

  function Numbered(rom: string, f: File): string { rom + " - " + f.stem + " (" + Decimal(f.id) + ")" }

  /** What a package may be called, in the order of preference; the last resort carries the file's id. */
  function Candidates(rom: string, f: File): (names: seq<string>)
    ensures names != [] && names[|names| - 1] == Numbered(rom, f)
  {
    match Label(f.category)
    case None => [rom + " - " + f.stem, Numbered(rom, f)]
    case Some(word) =>
      [rom + " - " + word, rom + " - " + f.stem, rom + " - " + word + " - " + f.stem, Numbered(rom, f)]
  }

  method NameCandidates(rom: string, f: File) returns (names: seq<string>)
    ensures names == Candidates(rom, f)
  {
    var word := Label(f.category);
    names := [];
    if word.Some? {
      names := names + [rom + " - " + word.value];
    }
    names := names + [rom + " - " + f.stem];
    if word.Some? {
      names := names + [rom + " - " + word.value + " - " + f.stem];
    }
    names := names + [Numbered(rom, f)];
  }

  function Count(names: seq<string>, name: string): nat {
    if names == [] then 0 else Count(names[..|names| - 1], name) + (if names[|names| - 1] == name then 1 else 0)
  }

  /** How often a name is laid claim to, over all candidates of all files. */
  function Claims(rom: string, files: seq<File>, name: string): nat {
    if files == [] then 0
    else Claims(rom, files[..|files| - 1], name) + Count(Candidates(rom, files[|files| - 1]), name)
  }

  function FirstUnclaimed(rom: string, files: seq<File>, names: seq<string>): Option<string> {
    if names == [] then None
    else if Claims(rom, files, names[0]) == 1 then Some(names[0]) else FirstUnclaimed(rom, files, names[1..])
  }

  /** A package's name; None stands for the search running out of candidates, which raises. */
  function NameOf(rom: string, files: seq<File>, f: File): Option<string> {
    if |files| == 1 then Some(rom) else FirstUnclaimed(rom, files, Candidates(rom, f))
  }

  predicate DistinctIds(files: seq<File>) { forall i, j | 0 <= i < j < |files| :: files[i].id != files[j].id }

  // ---- Distinct packages, distinct names ----

  lemma {:induction false} CountPresent(names: seq<string>, name: string)
    ensures Count(names, name) > 0 <==> name in names
  {
    if names != [] {
      CountPresent(names[..|names| - 1], name);
      assert names == names[..|names| - 1] + [names[|names| - 1]];
    }
  }

  lemma {:induction false} ClaimsOfTwo(rom: string, files: seq<File>, i: nat, j: nat, name: string)
    requires i < j < |files|
    ensures Claims(rom, files, name) >= Count(Candidates(rom, files[i]), name) + Count(Candidates(rom, files[j]), name)
  {
    hide Candidates, Count;
    if j == |files| - 1 {
      ClaimsOfOne(rom, files[..|files| - 1], i, name);
    } else {
      ClaimsOfTwo(rom, files[..|files| - 1], i, j, name);
    }
  }

  lemma {:induction false} ClaimsOfOne(rom: string, files: seq<File>, i: nat, name: string)
    requires i < |files|
    ensures Claims(rom, files, name) >= Count(Candidates(rom, files[i]), name)
  {
    hide Candidates, Count;
    if i < |files| - 1 { ClaimsOfOne(rom, files[..|files| - 1], i, name); }
  }

  lemma {:induction false} ChosenMeans(rom: string, files: seq<File>, names: seq<string>)
    ensures var r := FirstUnclaimed(rom, files, names);
            && (r.Some? <==> exists k :: 0 <= k < |names| && Claims(rom, files, names[k]) == 1)
            && (r.Some? ==> r.value in names && Claims(rom, files, r.value) == 1)
  {
    if names != [] {
      ChosenMeans(rom, files, names[1..]);
      if k :| 0 <= k < |names| && Claims(rom, files, names[k]) == 1 {
        if k > 0 { assert Claims(rom, files, names[1..][k - 1]) == 1; }
      }
      if k :| 0 <= k < |names[1..]| && Claims(rom, files, names[1..][k]) == 1 {
        assert Claims(rom, files, names[k + 1]) == 1;
      }
    }
  }

  /** Two packages of a ROM are never given the same name, so neither overwrites the other. */
  lemma NamesDiffer(rom: string, files: seq<File>, i: nat, j: nat)
    requires i < j < |files| && NameOf(rom, files, files[i]).Some? && NameOf(rom, files, files[j]).Some?
    ensures NameOf(rom, files, files[i]) != NameOf(rom, files, files[j])
  {
    ChosenMeans(rom, files, Candidates(rom, files[i]));
    ChosenMeans(rom, files, Candidates(rom, files[j]));
    var name := NameOf(rom, files, files[i]).value;
    ClaimsOfTwo(rom, files, i, j, name);
    CountPresent(Candidates(rom, files[i]), name);
    CountPresent(Candidates(rom, files[j]), name);
  }

  // ---- Last resorts ----

  lemma DecimalInjective(a: nat, b: nat)
    requires Decimal(a) == Decimal(b)
    ensures a == b
  {
    DecimalParses(a);
    DecimalParses(b);
  }

  lemma {:induction false} DecimalDigits(n: nat)
    ensures forall i | 0 <= i < |Decimal(n)| :: Decimal(n)[i] != '('
  {
    if n >= 10 { DecimalDigits(n / 10); }
  }

  /** Two texts that end in different numerals between brackets differ. */
  lemma NumberedDiffer(rom: string, f: File, g: File)
    requires f.id != g.id
    ensures Numbered(rom, f) != Numbered(rom, g)
  {
    var a, b := Decimal(f.id), Decimal(g.id);
    DecimalDigits(f.id);
    DecimalDigits(g.id);
    if Numbered(rom, f) == Numbered(rom, g) {
      var p, q := rom + " - " + f.stem, rom + " - " + g.stem;
      assert p + " (" == p + " " + "(" && q + " (" == q + " " + "(";
      SameTail(p + " ", a, q + " ", b);
      DecimalInjective(f.id, g.id);
    }
  }

  lemma SameTail(p: string, a: string, q: string, b: string)
    requires p + "(" + a + ")" == q + "(" + b + ")"
    requires (forall i | 0 <= i < |a| :: a[i] != '(') && (forall i | 0 <= i < |b| :: b[i] != '(')
    ensures a == b
  {
    var text := p + "(" + a + ")";
    assert text[|p|] == '(' && text[|q|] == (q + "(" + b + ")")[|q|] == '(';
    assert forall i | |p| < i < |text| - 1 :: text[i] == a[i - |p| - 1];
    assert forall i | |q| < i < |text| - 1 :: text[i] == (q + "(" + b + ")")[i] == b[i - |q| - 1];
    assert |p| == |q|;
    assert a == text[|p| + 1..|text| - 1] && b == (q + "(" + b + ")")[|q| + 1..|text| - 1];
  }

  /** Some candidate that is not itself a last resort spells out this file's. */
  predicate SpelledOut(rom: string, files: seq<File>, i: nat)
    requires i < |files|
  {
    exists j, k :: 0 <= j < |files| && 0 <= k < |Candidates(rom, files[j])| - 1
                   && Candidates(rom, files[j])[k] == Numbered(rom, files[i])
  }

  lemma {:induction false} CountOnce(names: seq<string>, name: string)
    requires forall k | 0 <= k < |names| - 1 :: names[k] != name
    ensures Count(names, name) == if names != [] && names[|names| - 1] == name then 1 else 0
  {
    if names != [] {
      var front := names[..|names| - 1];
      CountPresent(front, name);
      assert forall k | 0 <= k < |front| :: front[k] == names[k];
    }
  }

  lemma {:induction false} ClaimedOnce(rom: string, files: seq<File>, i: nat, n: nat)
    requires i < |files| && n <= |files| && DistinctIds(files) && !SpelledOut(rom, files, i)
    ensures Claims(rom, files[..n], Numbered(rom, files[i])) == if i < n then 1 else 0
  {
    if n > 0 {
      var last := files[n - 1];
      assert files[..n][..n - 1] == files[..n - 1] && files[..n][n - 1] == last;
      ClaimedOnce(rom, files, i, n - 1);
      CountOnce(Candidates(rom, last), Numbered(rom, files[i]));
      if n - 1 != i { NumberedDiffer(rom, last, files[i]); }
    }
  }

  /** Every file whose last resort nobody spells out gets a name; so names run out only when
      some file's last resort is another candidate. */
  lemma NameExists(rom: string, files: seq<File>, i: nat)
    requires DistinctIds(files) && i < |files| && !SpelledOut(rom, files, i)
    ensures NameOf(rom, files, files[i]).Some?
  {
    var names := Candidates(rom, files[i]);
    ClaimedOnce(rom, files, i, |files|);
    assert files[..|files|] == files;
    ChosenMeans(rom, files, names);
    assert Claims(rom, files, names[|names| - 1]) == 1;
  }

  lemma NamelessByCount(rom: string, files: seq<File>, i: nat)
    requires i < |files| && |files| != 1
    ensures NameOf(rom, files, files[i]).None? <==>
            forall k | 0 <= k < |Candidates(rom, files[i])| :: Claims(rom, files, Candidates(rom, files[i])[k]) >= 2
  {
    var names := Candidates(rom, files[i]);
    ChosenMeans(rom, files, names);
    forall k | 0 <= k < |names| ensures Claims(rom, files, names[k]) >= 1 {
      CountPresent(names, names[k]);
      ClaimsOfOne(rom, files, i, names[k]);
    }
  }

  /** A candidate that another package has too, or that its own list repeats. */
  predicate Contested(rom: string, files: seq<File>, i: nat, k: nat)
    requires i < |files| && k < |Candidates(rom, files[i])|
  {
    var name := Candidates(rom, files[i])[k];
    || (exists j :: 0 <= j < |files| && j != i && name in Candidates(rom, files[j]))
    || (exists l :: 0 <= l < |Candidates(rom, files[i])| && l != k && Candidates(rom, files[i])[l] == name)
  }

  lemma {:induction false} CountTwice(names: seq<string>, k: nat)
    requires k < |names|
    ensures Count(names, names[k]) >= 2 <==> exists l :: 0 <= l < |names| && l != k && names[l] == names[k]
  {
    var front, last := names[..|names| - 1], |names| - 1;
    CountPresent(front, names[k]);
    if k < last {
      CountTwice(front, k);
      if l :| 0 <= l < |front| && l != k && front[l] == front[k] { assert names[l] == names[k]; }
      if l :| 0 <= l < |names| && l != k && names[l] == names[k] {
        if l < last { assert front[l] == front[k]; }
      }
      if names[last] == names[k] { assert last != k; }
    } else {
      if names[k] in front { var l :| 0 <= l < |front| && front[l] == names[k]; assert names[l] == names[k]; }
      if l :| 0 <= l < |names| && l != k && names[l] == names[k] { assert front[l] == names[k]; }
      if Count(front, names[k]) > 0 { assert names[k] in front; }
    }
  }

  /** Claims on a name come from the file itself and from files that have it. */
  lemma {:induction false} ClaimsSplit(rom: string, files: seq<File>, i: nat, name: string)
    requires i < |files|
    ensures Claims(rom, files, name) > Count(Candidates(rom, files[i]), name) <==>
            exists j :: 0 <= j < |files| && j != i && name in Candidates(rom, files[j])
  {
    hide Candidates, Count;
    var front, last := files[..|files| - 1], |files| - 1;
    CountPresent(Candidates(rom, files[last]), name);
    assert forall j | 0 <= j < last :: front[j] == files[j];
    if i < last {
      ClaimsSplit(rom, front, i, name);
      ClaimsOfOne(rom, front, i, name);
      if j :| 0 <= j < |front| && j != i && name in Candidates(rom, front[j]) { assert name in Candidates(rom, files[j]); }
      if j :| 0 <= j < |files| && j != i && name in Candidates(rom, files[j]) {
        if j < last { assert name in Candidates(rom, front[j]); }
      }
    } else {
      AnyClaim(rom, front, name);
      if j :| 0 <= j < |front| && name in Candidates(rom, front[j]) { assert name in Candidates(rom, files[j]); }
      if j :| 0 <= j < |files| && j != i && name in Candidates(rom, files[j]) { assert name in Candidates(rom, front[j]); }
    }
  }

  lemma {:induction false} AnyClaim(rom: string, files: seq<File>, name: string)
    ensures Claims(rom, files, name) > 0 <==> exists j :: 0 <= j < |files| && name in Candidates(rom, files[j])
  {
    hide Candidates, Count;
    if files != [] {
      var front, last := files[..|files| - 1], |files| - 1;
      AnyClaim(rom, front, name);
      CountPresent(Candidates(rom, files[last]), name);
      if j :| 0 <= j < |front| && name in Candidates(rom, front[j]) { assert name in Candidates(rom, files[j]); }
      if j :| 0 <= j < |files| && name in Candidates(rom, files[j]) {
        if j < last { assert name in Candidates(rom, front[j]); }
      }
    }
  }

  lemma ContestedByCount(rom: string, files: seq<File>, i: nat, k: nat)
    requires i < |files| && k < |Candidates(rom, files[i])|
    ensures Contested(rom, files, i, k) <==> Claims(rom, files, Candidates(rom, files[i])[k]) >= 2
  {
    hide Candidates, Count, Claims;
    var names := Candidates(rom, files[i]);
    CountTwice(names, k);
    CountPresent(names, names[k]);
    ClaimsOfOne(rom, files, i, names[k]);
    ClaimsSplit(rom, files, i, names[k]);
  }

  /** A package is left without a name exactly when another candidate spells out its last
      resort and each of its other candidates is another package's too, or its own twice. */
  lemma NamelessExactly(rom: string, files: seq<File>, i: nat)
    requires DistinctIds(files) && i < |files|
    ensures NameOf(rom, files, files[i]).None? <==>
            && |files| != 1 && SpelledOut(rom, files, i)
            && forall k | 0 <= k < |Candidates(rom, files[i])| - 1 :: Contested(rom, files, i, k)
  {
    var names := Candidates(rom, files[i]);
    if |files| != 1 {
      NamelessByCount(rom, files, i);
      forall k | 0 <= k < |names| ensures Contested(rom, files, i, k) <==> Claims(rom, files, names[k]) >= 2 {
        ContestedByCount(rom, files, i, k);
      }
      if SpelledOut(rom, files, i) { SpelledOutIsContested(rom, files, i); } else { NameExists(rom, files, i); }
    }
    hide Claims, Contested, SpelledOut, Count;
  }

  lemma SpelledOutIsContested(rom: string, files: seq<File>, i: nat)
    requires i < |files| && SpelledOut(rom, files, i)
    ensures Contested(rom, files, i, |Candidates(rom, files[i])| - 1)
  {
    hide Candidates;
    var j, k :| 0 <= j < |files| && 0 <= k < |Candidates(rom, files[j])| - 1
                && Candidates(rom, files[j])[k] == Numbered(rom, files[i]);
    if j == i {
      assert k != |Candidates(rom, files[i])| - 1;
    } else {
      assert Numbered(rom, files[i]) in Candidates(rom, files[j]);
    }
  }

  const CLASH: seq<File> := [File(1, Uncategorized, "x (2)"), File(2, Uncategorized, "x"), File(3, Uncategorized, "x")]

  /** Three packages that leave the second without a name: the third shares its stem, and the
      first's stem spells out its last resort. */
  lemma NamesRunOut(rom: string)
    ensures NameOf(rom, CLASH, CLASH[1]).None?
  {
    NamelessByCount(rom, CLASH, 1);
    var plain, numbered := rom + " - " + "x", Numbered(rom, CLASH[1]);
    assert Decimal(2) == "2";
    assert numbered == rom + " - " + "x (2)" by { assert " (" + "2" + ")" == " (2)" && "x" + " (2)" == "x (2)"; }
    CountPresent(Candidates(rom, CLASH[0]), numbered);
    CountPresent(Candidates(rom, CLASH[1]), numbered);
    CountPresent(Candidates(rom, CLASH[1]), plain);
    CountPresent(Candidates(rom, CLASH[2]), plain);
    ClaimsOfTwo(rom, CLASH, 0, 1, numbered);
    ClaimsOfTwo(rom, CLASH, 1, 2, plain);
  }

  // ---- Which name is taken ----

  /** The only package of a ROM takes the ROM's name. */
  lemma OnlyPackageTakesTheRomsName(rom: string, f: File)
    ensures NameOf(rom, [f], f) == Some(rom)
  {
  }

  /** With several packages each takes the first of its candidates that nobody else has and that
      it has once. */
  lemma FirstFreeNameIsTaken(rom: string, files: seq<File>, i: nat)
    requires i < |files| && |files| != 1 && NameOf(rom, files, files[i]).Some?
    ensures var names := Candidates(rom, files[i]);
            exists k :: 0 <= k < |names| && NameOf(rom, files, files[i]) == Some(names[k]) && !Contested(rom, files, i, k)
                        && forall l | 0 <= l < k :: Contested(rom, files, i, l)
  {
    var names := Candidates(rom, files[i]);
    var k := FirstOfClaims(rom, files, names);
    forall l | 0 <= l <= k ensures Contested(rom, files, i, l) <==> Claims(rom, files, names[l]) != 1 {
      ContestedByCount(rom, files, i, l);
      CountPresent(names, names[l]);
      ClaimsOfOne(rom, files, i, names[l]);
    }
    hide Candidates, Contested, Claims;
  }

  lemma {:induction false} FirstOfClaims(rom: string, files: seq<File>, names: seq<string>) returns (k: nat)
    requires FirstUnclaimed(rom, files, names).Some?
    ensures k < |names| && FirstUnclaimed(rom, files, names) == Some(names[k]) && Claims(rom, files, names[k]) == 1
    ensures forall l | 0 <= l < k :: Claims(rom, files, names[l]) != 1
  {
    if Claims(rom, files, names[0]) == 1 {
      k := 0;
    } else {
      var j := FirstOfClaims(rom, files, names[1..]);
      k := j + 1;
      forall l | 0 <= l < k ensures Claims(rom, files, names[l]) != 1 {
        if l > 0 { assert names[l] == names[1..][l - 1]; }
      }
    }
  }

  /** The most readable candidate of a package of a known kind is the ROM's name and that kind. */
  lemma KindIsNamed(rom: string, f: File)
    ensures var first := Candidates(rom, f)[0];
            match f.category
            case Game => first == rom + " - " + "Game"
            case Dlc => first == rom + " - " + "DLC"
            case Update => first == rom + " - " + "Update"
            case Patch => first == rom + " - " + "Patch"
            case Demo => first == rom + " - " + "Demo"
            case _ => first == rom + " - " + f.stem && |Candidates(rom, f)| == 2
  {
  }

  /** Of several packages one of a known kind is called by the kind; if that name is contested, by
      its own stem; then by both; and last by its stem and id. */
  lemma NextBestName(rom: string, files: seq<File>, i: nat)
    requires i < |files| && |files| != 1 && Label(files[i].category).Some?
    ensures var f, word := files[i], Label(files[i].category).value;
            var name := NameOf(rom, files, f);
            |Candidates(rom, f)| == 4 &&
            if !Contested(rom, files, i, 0) then name == Some(rom + " - " + word)
            else if !Contested(rom, files, i, 1) then name == Some(rom + " - " + f.stem)
            else if !Contested(rom, files, i, 2) then name == Some(rom + " - " + word + " - " + f.stem)
            else if !Contested(rom, files, i, 3) then name == Some(rom + " - " + f.stem + " (" + Decimal(f.id) + ")")
            else name == None
  {
    var names := Candidates(rom, files[i]);
    forall k | 0 <= k < 4 ensures Contested(rom, files, i, k) <==> Claims(rom, files, names[k]) != 1 {
      ContestedByCount(rom, files, i, k);
      CountPresent(names, names[k]);
      ClaimsOfOne(rom, files, i, names[k]);
    }
    FirstOfFour(rom, files, names);
    hide Contested, Claims, FirstUnclaimed;
  }

  lemma FirstOfFour(rom: string, files: seq<File>, names: seq<string>)
    requires |names| == 4
    ensures FirstUnclaimed(rom, files, names) ==
            if Claims(rom, files, names[0]) == 1 then Some(names[0]) else if Claims(rom, files, names[1]) == 1 then Some(names[1])
            else if Claims(rom, files, names[2]) == 1 then Some(names[2])
            else if Claims(rom, files, names[3]) == 1 then Some(names[3]) else None
  {
    hide Claims;
    assert names[1..][0] == names[1] && names[1..][1..] == names[2..] && names[2..][0] == names[2];
    assert names[2..][1..] == names[3..] && names[3..][0] == names[3] && names[3..][1..] == [];
    assert FirstUnclaimed(rom, files, names[3..]) == if Claims(rom, files, names[3]) == 1 then Some(names[3]) else None;
    assert FirstUnclaimed(rom, files, names[2..]) ==
           if Claims(rom, files, names[2]) == 1 then Some(names[2]) else FirstUnclaimed(rom, files, names[3..]);
  }
}
