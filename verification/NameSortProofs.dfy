/** Titles that differ first in a number sort by that number; and exactly when the stored
    key follows the name. */
module NameSortProofs {
  import opened Common
  import opened NameSort

  // ---- Numbers and their padding ----

  predicate Digits(text: string) { forall i | 0 <= i < |text| :: IsDigit(text[i]) }

  function DigitValue(c: char): nat
    requires IsDigit(c)
  {
    (c - '0') as nat
  }

  function NumberOf(run: string): nat
    requires Digits(run)
  {
    if run == "" then 0 else 10 * NumberOf(run[..|run| - 1]) + DigitValue(run[|run| - 1])
  }

  /** Code-point order, as strings compare. */
  predicate Before(a: string, b: string) {
    exists k :: 0 <= k <= |a| && k < |b| && a[..k] == b[..k] && (k == |a| || a[k] < b[k])
  }

  predicate FirstDifference(a: string, b: string, k: nat) {
    k < |a| && k < |b| && a[..k] == b[..k] && a[k] < b[k]
  }

  /** Digit strings of one length compare as their numbers do. */
  lemma {:induction false} PaddedCompare(a: string, b: string) returns (k: nat)
    requires Digits(a) && Digits(b) && |a| == |b| && NumberOf(a) < NumberOf(b)
    ensures FirstDifference(a, b, k)
  {
    var a', b' := a[..|a| - 1], b[..|b| - 1];
    if NumberOf(a') == NumberOf(b') {
      SameNumber(a', b');
      k := |a| - 1;
    } else {
      k := PaddedCompare(a', b');
      assert a[..k] == a'[..k] && b[..k] == b'[..k];
    }
  }

  lemma SameDigits(m: nat, c: nat, n: nat, d: nat)
    requires c < 10 && d < 10 && 10 * m + c == 10 * n + d
    ensures m == n && c == d
  {
  }

  lemma {:induction false} SameNumber(a: string, b: string)
    requires Digits(a) && Digits(b) && |a| == |b| && NumberOf(a) == NumberOf(b)
    ensures a == b
  {
    if a != "" {
      SameDigits(NumberOf(a[..|a| - 1]), DigitValue(a[|a| - 1]), NumberOf(b[..|b| - 1]), DigitValue(b[|b| - 1]));
      hide NumberOf;
      SameNumber(a[..|a| - 1], b[..|b| - 1]);
      assert a == a[..|a| - 1] + [a[|a| - 1]] && b == b[..|b| - 1] + [b[|b| - 1]];
    }
  }

  lemma {:induction false} LeadingZeros(n: nat, run: string)
    requires Digits(run)
    ensures Digits(Zeros(n) + run) && NumberOf(Zeros(n) + run) == NumberOf(run)
    decreases n + |run|
  {
    var text := Zeros(n) + run;
    assert forall i | n <= i < |text| :: text[i] == run[i - n];
    if run != "" {
      LeadingZeros(n, run[..|run| - 1]);
      assert text[..|text| - 1] == Zeros(n) + run[..|run| - 1];
    } else if n > 0 {
      LeadingZeros(n - 1, "");
      assert text[..n - 1] == Zeros(n - 1) + "" && text[n - 1] == '0';
    }
  }

  // ---- Normalizing around a run ----

  lemma LowerConcat(a: string, b: string)
    ensures Lower(a + b) == Lower(a) + Lower(b)
  {
  }

  lemma LowerDigits(run: string)
    requires Digits(run)
    ensures Lower(run) == run
  {
  }

  predicate EndsOpen(text: string) { text == "" || !IsDigit(text[|text| - 1]) }

  predicate StartsOpen(text: string) { text == "" || !IsDigit(text[0]) }

  /** An article is found, or not, before the first digit. */
  lemma ArticleBeforeRun(p: string, s: string)
    requires s != "" && IsDigit(s[0])
    ensures ArticleLength(p + s) == ArticleLength(p)
  {
    assert forall k: nat | ArticleAt(p, k) :: ArticleAt(p + s, k) by {
      forall k: nat | ArticleAt(p, k) ensures ArticleAt(p + s, k) { assert (p + s)[..k] == p[..k]; }
    }
    forall k: nat | ArticleAt(p + s, k) ensures ArticleAt(p, k) {
      assert (p + s)[|p|] == s[0];
      if k > |p| {
        assert (p + s)[..k][|p|] == s[0];
        NoDigitInArticle((p + s)[..k], |p|);
      }
      assert (p + s)[..k] == p[..k];
    }
    NoLongArticle(p);
    NoLongArticle(p + s);
  }

  lemma NoDigitInArticle(a: string, i: nat)
    requires a in ARTICLES && i < |a|
    ensures !IsDigit(a[i])
  {
  }

  lemma {:induction false} StripLeftBeforeRun(p: string, s: string)
    requires s != "" && !IsSpace(s[0])
    ensures StripLeft(p + s) == StripLeft(p) + s
  {
    if p == "" {
      assert p + s == s;
    } else if IsSpace(p[0]) {
      assert (p + s)[1..] == p[1..] + s;
      StripLeftBeforeRun(p[1..], s);
    }
  }

  lemma {:induction false} StripRightAfterRun(p: string, s: string)
    requires p != "" && !IsSpace(p[|p| - 1])
    ensures StripRight(p + s) == p + StripRight(s)
  {
    if s == "" {
      assert p + s == p;
    } else if IsSpace(s[|s| - 1]) {
      assert (p + s)[..|p + s| - 1] == p + s[..|s| - 1];
      StripRightAfterRun(p, s[..|s| - 1]);
    }
  }

  /** What the text before a number becomes, whatever the number and the rest. */
  function Lead(p: string): string { StripLeft(DropArticle(Lower(p))) }

  lemma DropBeforeRun(p: string, s: string)
    requires s != "" && IsDigit(s[0])
    ensures DropArticle(p + s) == DropArticle(p) + s
  {
    ArticleBeforeRun(p, s);
    hide ArticleLength;
  }

  lemma LowerAroundRun(p: string, d: string, r: string)
    requires Digits(d)
    ensures Lower(p + d + r) == Lower(p) + (d + Lower(r))
  {
    Assoc(p, d, r);
    LowerConcat(p, d + r);
    LowerConcat(d, r);
    LowerDigits(d);
    hide Lower;
  }

  lemma NormalAroundRun(p: string, d: string, r: string)
    requires d != "" && Digits(d)
    ensures Normal(p + d + r) == Lead(p) + d + StripRight(Lower(r))
  {
    LowerAroundRun(p, d, r);
    var s := d + Lower(r);
    assert IsDigit(s[0]) && !IsSpace(s[0]);
    DropBeforeRun(Lower(p), s);
    StripLeftBeforeRun(DropArticle(Lower(p)), s);
    var front := Lead(p) + d;
    assert front[|front| - 1] == d[|d| - 1];
    hide Lower, DropArticle, StripLeft, StripRight;
    Assoc(Lead(p), d, Lower(r));
    StripRightAfterRun(front, Lower(r));
  }

  lemma Assoc(a: string, b: string, c: string)
    ensures a + b + c == a + (b + c)
  {
  }

  // ---- Padding around a run ----

  lemma RunOf(d: string, r: string)
    requires Digits(d) && StartsOpen(r)
    ensures RunLength(d + r) == |d|
  {
    hide RunLength, IsDigit;
    var text := d + r;
    assert forall i | 0 <= i < |d| :: text[i] == d[i];
    assert r != "" ==> text[|d|] == r[0];
  }

  /** The join of two texts falls inside no run. */
  predicate Cuts(p: string, s: string) { EndsOpen(p) || StartsOpen(s) }

  lemma TakeDrop(p: string, s: string, n: nat)
    requires n <= |p|
    ensures (p + s)[..n] == p[..n] && (p + s)[n..] == p[n..] + s
  {
  }

  lemma CutsLater(p: string, s: string, n: nat)
    requires n <= |p| && Cuts(p, s)
    ensures Cuts(p[n..], s)
  {
  }

  /** Appending across such a join leaves a text's first run alone. */
  lemma FirstRunStays(p: string, s: string)
    requires p != "" && Cuts(p, s)
    ensures var n := RunLength(p);
            n <= |p| && RunLength(p + s) == n && (p + s)[..n] == p[..n] && (p + s)[n..] == p[n..] + s
            && (p + s)[0] == p[0] && (p + s)[1..] == p[1..] + s && Cuts(p[n..], s) && Cuts(p[1..], s)
  {
    var n := RunLength(p);
    TakeDrop(p, s, n);
    TakeDrop(p, s, 1);
    CutsLater(p, s, n);
    CutsLater(p, s, 1);
    var d, rest := p[..n], p[n..] + s;
    assert Digits(d) && StartsOpen(rest);
    hide RunLength, Cuts, EndsOpen, StartsOpen, Digits, IsDigit;
    RunOf(d, rest);
    assert p + s == d + rest;
  }

  /** The first character or run of a text as padding writes it, and what comes after. */
  function Head(text: string): string
    requires text != ""
  {
    var n := RunLength(text);
    if n == 0 then [text[0]] else ZFill(text[..n])
  }

  function Tail(text: string): (r: string)
    requires text != ""
    ensures |r| < |text|
  {
    var n := RunLength(text);
    if n == 0 then text[1..] else text[n..]
  }

  lemma PadUnfolds(text: string)
    requires text != ""
    ensures PadRuns(text) == Head(text) + PadRuns(Tail(text))
  {
    PadStep(text, RunLength(text));
    hide PadRuns, RunLength, ZFill;
  }

  lemma HeadStays(p: string, s: string)
    requires p != "" && Cuts(p, s)
    ensures Head(p + s) == Head(p) && Tail(p + s) == Tail(p) + s && Cuts(Tail(p), s)
  {
    FirstRunStays(p, s);
    hide RunLength, ZFill, Cuts;
  }

  lemma {:induction false} PadBeforeRun(p: string, s: string)
    requires Cuts(p, s)
    ensures PadRuns(p + s) == PadRuns(p) + PadRuns(s)
    decreases |p|
  {
    if p == "" {
      assert p + s == s && PadRuns("") == "";
    } else {
      HeadStays(p, s);
      PadUnfolds(p);
      PadUnfolds(p + s);
      hide PadRuns, Head, Tail, Cuts;
      PadBeforeRun(Tail(p), s);
      Assoc(Head(p), PadRuns(Tail(p)), PadRuns(s));
    }
  }

  lemma PadStep(text: string, n: nat)
    requires text != "" && RunLength(text) == n
    ensures PadRuns(text) == if n == 0 then [text[0]] + PadRuns(text[1..]) else ZFill(text[..n]) + PadRuns(text[n..])
  {
    hide RunLength;
  }

  lemma PadRun(d: string, r: string)
    requires d != "" && Digits(d) && StartsOpen(r)
    ensures PadRuns(d + r) == ZFill(d) + PadRuns(r)
  {
    RunOf(d, r);
    PadStep(d + r, |d|);
    hide PadRuns, RunLength, ZFill;
    assert (d + r)[..|d|] == d && (d + r)[|d|..] == r;
  }

  lemma LeadEndsOpen(p: string)
    requires EndsOpen(p)
    ensures EndsOpen(Lead(p))
  {
    hide ArticleLength, StripLeft;
    var low := Lower(p);
    var dropped := DropArticle(low);
    if Lead(p) != "" {
      assert Lead(p)[|Lead(p)| - 1] == dropped[|dropped| - 1] == low[|low| - 1];
    }
  }

  lemma TailStartsOpen(r: string)
    requires StartsOpen(r)
    ensures StartsOpen(StripRight(Lower(r)))
  {
    if StripRight(Lower(r)) != "" { assert StripRight(Lower(r))[0] == Lower(r)[0]; }
  }

  lemma PaddedAroundRun(p: string, d: string, r: string)
    requires d != "" && Digits(d) && EndsOpen(p) && StartsOpen(r)
    ensures PadRuns(Normal(p + d + r)) == PadRuns(Lead(p)) + ZFill(d) + PadRuns(StripRight(Lower(r)))
  {
    NormalAroundRun(p, d, r);
    LeadEndsOpen(p);
    TailStartsOpen(r);
    hide Normal, Lead, PadRuns, ZFill, StripRight, Lower, EndsOpen, StartsOpen;
    var lead, tail := Lead(p), StripRight(Lower(r));
    Assoc(lead, d, tail);
    assert Cuts(lead, d + tail);
    PadBeforeRun(lead, d + tail);
    PadRun(d, tail);
    Assoc(PadRuns(lead), ZFill(d), PadRuns(tail));
  }

  /** Two titles that agree up to a number, in which the first's is smaller, get keys in that
      order whatever follows, as long as the padded number is not cut off. */
  lemma NaturalOrder(p: string, d1: string, r1: string, d2: string, r2: string)
    requires EndsOpen(p) && StartsOpen(r1) && StartsOpen(r2)
    requires d1 != "" && d2 != "" && Digits(d1) && Digits(d2) && |d1| <= 12 && |d2| <= 12
    requires NumberOf(d1) < NumberOf(d2)
    requires |PadRuns(Lead(p))| + 12 <= 500
    ensures Before(SortKey(p + d1 + r1), SortKey(p + d2 + r2))
  {
    PaddedAroundRun(p, d1, r1);
    PaddedAroundRun(p, d2, r2);
    hide PadRuns, Normal, Lead, StripRight, Lower, Truncate, Before;
    LeadingZeros(PADDED - |d1|, d1);
    LeadingZeros(PADDED - |d2|, d2);
    var k := PaddedCompare(ZFill(d1), ZFill(d2));
    KeepDifference(PadRuns(Lead(p)), ZFill(d1), PadRuns(StripRight(Lower(r1))), ZFill(d2), PadRuns(StripRight(Lower(r2))), k);
  }

  lemma KeepDifference(lead: string, z1: string, t1: string, z2: string, t2: string, k: nat)
    requires FirstDifference(z1, z2, k) && |z1| == |z2| && |lead| + |z1| <= NAME_SORT_KEY_MAX_LENGTH
    ensures Before(Truncate(lead + z1 + t1), Truncate(lead + z2 + t2))
  {
    var a, b := Truncate(lead + z1 + t1), Truncate(lead + z2 + t2);
    var n := |lead| + k;
    assert a[..n] == lead + z1[..k] && b[..n] == lead + z2[..k];
    assert a[n] == z1[k] && b[n] == z2[k];
  }

  // ---- Keys of keys ----

  lemma {:induction false} PadGrows(text: string)
    ensures |PadRuns(text)| >= |text|
    decreases |text|
  {
    if text != "" {
      var n := RunLength(text);
      PadGrows(if n == 0 then text[1..] else text[n..]);
    }
  }

  lemma PadKeepsStart(r: string)
    requires StartsOpen(r)
    ensures StartsOpen(PadRuns(r))
  {
  }

  lemma PadAfterOpen(c: char, r: string)
    requires !IsDigit(c)
    ensures PadRuns([c] + r) == [c] + PadRuns(r)
  {
    assert ([c] + r)[1..] == r;
  }

  lemma PadPaddedRun(d: string, r: string)
    requires d != "" && Digits(d) && StartsOpen(r)
    ensures PadRuns(ZFill(d) + r) == ZFill(d) + PadRuns(r)
  {
    var z := ZFill(d);
    LeadingZeros(if |d| < PADDED then PADDED - |d| else 0, d);
    PadRun(z, r);
    hide PadRuns, NumberOf;
    assert Zeros(0) + z == z;
  }

  /** Padding a padded text changes nothing. */
  lemma {:induction false} PadTwice(text: string)
    ensures PadRuns(PadRuns(text)) == PadRuns(text)
    decreases |text|
  {
    if text != "" {
      var n := RunLength(text);
      PadStep(text, n);
      var d, r := text[..n], text[n..];
      assert StartsOpen(r) && Digits(d);
      if n == 0 {
        PadTwice(text[1..]);
        PadAfterOpen(text[0], PadRuns(text[1..]));
      } else {
        PadTwice(r);
        PadKeepsStart(r);
        PadPaddedRun(d, PadRuns(r));
      }
      hide PadRuns, ZFill, RunLength;
    }
  }

  /** A piece of a padded text, cut at joins that split no run, is padded. */
  lemma PieceIsPadded(a: string, b: string, c: string)
    requires PadRuns(a + b + c) == a + b + c && Cuts(a, b + c) && Cuts(b, c)
    ensures PadRuns(b) == b
  {
    Assoc(a, b, c);
    PadBeforeRun(a, b + c);
    PadBeforeRun(b, c);
    PadGrows(a);
    PadGrows(b);
    PadGrows(c);
    hide PadRuns, Cuts;
    var pa, pb, pc := PadRuns(a), PadRuns(b), PadRuns(c);
    Assoc(pa, pb, pc);
    var whole := a + b + c;
    assert whole == pa + pb + pc && |pa| == |a| && |pb| == |b|;
    assert pb == whole[|a|..|a| + |b|] == b;
  }

  lemma PrefixIsPadded(b: string, c: string)
    requires PadRuns(b + c) == b + c && Cuts(b, c)
    ensures PadRuns(b) == b
  {
    PadBeforeRun(b, c);
    PadGrows(b);
    PadGrows(c);
    hide PadRuns, Cuts;
    assert |PadRuns(b)| == |b|;
    assert PadRuns(b) == (b + c)[..|b|] == b;
  }

  /** How many digits a text ends in. */
  function TrailingRun(text: string): (m: nat)
    ensures m <= |text|
  {
    if EndsOpen(text) then 0 else 1 + TrailingRun(text[..|text| - 1])
  }

  lemma {:induction false} TrailingRunMeans(text: string)
    ensures var m := TrailingRun(text); Digits(text[|text| - m..]) && EndsOpen(text[..|text| - m])
  {
    var m := TrailingRun(text);
    if m == 0 {
      assert text[..|text|] == text;
    } else {
      var front := text[..|text| - 1];
      assert TrailingRun(front) == m - 1 && IsDigit(text[|text| - 1]);
      TrailingRunMeans(front);
      hide TrailingRun, IsDigit, EndsOpen;
      TailOf(text, m);
    }
  }

  lemma TailOf(text: string, m: nat)
    requires 0 < m <= |text|
    ensures var front := text[..|text| - 1];
            text[|text| - m..] == front[|front| - (m - 1)..] + [text[|text| - 1]] && text[..|text| - m] == front[..|front| - (m - 1)]
  {
  }

  /** A final run that the length limit cut short reads as a smaller number, unless it is
      all zeros. */
  predicate WholeRun(key: string) {
    var m := TrailingRun(key);
    m == 0 || m >= PADDED || key[|key| - m..] == Zeros(m)
  }

  /** Computing the key of a key gives it back exactly when it has no article of its own, no
      space at the cut and no run cut short. */
  predicate Settled(key: string) {
    && ArticleLength(key) == 0
    && (key == "" || !IsSpace(key[|key| - 1]))
    && WholeRun(key)
  }

  // ---- What keys look like ----

  lemma LowerTwice(text: string)
    ensures Lower(Lower(text)) == Lower(text)
  {
  }

  predicate LowerCase(text: string) { forall i | 0 <= i < |text| :: LowerChar(text[i]) == text[i] }

  lemma LowerCaseStays(text: string)
    ensures LowerCase(text) <==> Lower(text) == text
  {
    assert |Lower(text)| == |text|;
  }

  lemma {:induction false} PadStaysLower(text: string)
    requires LowerCase(text)
    ensures LowerCase(PadRuns(text))
    decreases |text|
  {
    if text != "" {
      var n := RunLength(text);
      PadStep(text, n);
      hide PadRuns, RunLength;
      if n == 0 {
        PadStaysLower(text[1..]);
      } else {
        PadStaysLower(text[n..]);
        assert forall i | 0 <= i < n :: LowerChar(text[..n][i]) == text[..n][i];
      }
    }
  }

  predicate StartsDark(text: string) { text == "" || !IsSpace(text[0]) }

  lemma {:induction false} StripLeftStarts(text: string)
    ensures StartsDark(StripLeft(text))
  {
    if text != "" && IsSpace(text[0]) { StripLeftStarts(text[1..]); }
  }

  lemma PadStartsDark(text: string)
    requires StartsDark(text)
    ensures StartsDark(PadRuns(text))
  {
    if text != "" {
      var n := RunLength(text);
      if n > 0 { assert IsDigit(ZFill(text[..n])[0]); }
    }
  }

  /** A key is a prefix of a padded, lower-case text that starts with no space, and is all of
      it unless the limit cut it. */
  predicate KeyOf(key: string, full: string) {
    && key == Truncate(full) && PadRuns(full) == full && LowerCase(full) && StartsDark(full)
  }

  lemma KeysAreCut(name: string) returns (full: string)
    ensures KeyOf(SortKey(name), full)
  {
    full := PadRuns(Normal(name));
    var low, n := Lower(name), Normal(name);
    var dropped := DropArticle(low);
    PadTwice(n);
    StripLeftStarts(dropped);
    assert LowerCase(low) by { LowerTwice(name); LowerCaseStays(low); }
    assert LowerCase(dropped);
    assert LowerCase(StripLeft(dropped));
    assert LowerCase(n);
    PadStaysLower(n);
    PadStartsDark(n);
  }

  // ---- When a key settles ----

  lemma {:induction false} StripRightMeans(text: string)
    ensures |StripRight(text)| < |text| ==> IsSpace(text[|StripRight(text)|])
  {
    if text != "" && IsSpace(text[|text| - 1]) { StripRightMeans(text[..|text| - 1]); }
  }

  lemma {:induction false} StripLeftMeans(text: string)
    ensures |StripLeft(text)| < |text| ==> IsSpace(text[|text| - |StripLeft(text)| - 1])
  {
    if text != "" && IsSpace(text[0]) { StripLeftMeans(text[1..]); }
  }

  /** The text of a key before its final run, the run, and what the limit cut off. */
  lemma Parts(key: string, full: string) returns (q: string, run: string, rest: string)
    requires KeyOf(key, full)
    ensures key == q + run && full == key + rest && |run| == TrailingRun(key) && run == key[|q|..]
    ensures EndsOpen(q) && Digits(run) && PadRuns(q) == q && |key| <= NAME_SORT_KEY_MAX_LENGTH
  {
    hide PadRuns, TrailingRun, LowerCase, StartsDark, EndsOpen, IsDigit;
    var m := TrailingRun(key);
    TrailingRunMeans(key);
    q, run := key[..|key| - m], key[|key| - m..];
    rest := full[|key|..];
    assert key == q + run && full == key + rest;
    hide KeyOf;
    Assoc(q, run, rest);
    PrefixIsPadded(q, run + rest);
  }

  lemma PadOfRun(run: string)
    requires Digits(run)
    ensures PadRuns(run) == if run == "" then "" else ZFill(run)
    ensures Digits(ZFill(run)) && (|run| >= PADDED ==> ZFill(run) == run)
  {
    if run != "" { PadOnlyRun(run); }
    LeadingZeros(if |run| < PADDED then PADDED - |run| else 0, run);
    hide PadRuns, NumberOf;
  }

  lemma PadOnlyRun(run: string)
    requires run != "" && Digits(run)
    ensures PadRuns(run) == ZFill(run)
  {
    assert PadRuns("") == "" && StartsOpen("");
    hide PadRuns, ZFill;
    PadRun(run, "");
    assert run + "" == run && ZFill(run) + "" == ZFill(run);
  }

  lemma PadOfKey(key: string, full: string) returns (q: string, run: string, rest: string)
    requires KeyOf(key, full)
    ensures key == q + run && full == key + rest && |run| == TrailingRun(key) && run == key[|q|..]
    ensures Digits(run) && |key| <= NAME_SORT_KEY_MAX_LENGTH
    ensures PadRuns(key) == q + (if run == "" then "" else ZFill(run))
    ensures 0 < |run| < PADDED ==> |key| == NAME_SORT_KEY_MAX_LENGTH
  {
    q, run, rest := Parts(key, full);
    PadBeforeRun(q, run);
    PadOfRun(run);
    hide PadRuns, TrailingRun, LowerCase, StartsDark, Digits;
    assert 0 < |run| < PADDED ==> |PadRuns(key)| > |key|;
  }

  lemma {:induction false} ShiftedZeros(run: string, d: nat)
    requires 0 < d
    ensures (Zeros(d) + run)[..|run|] == run <==> run == Zeros(|run|)
  {
    var shifted := (Zeros(d) + run)[..|run|];
    if shifted == run {
      AllZero(run, d, |run|);
    }
    if run == Zeros(|run|) {
      assert forall i | 0 <= i < |run| :: shifted[i] == '0';
    }
  }

  lemma {:induction false} AllZero(run: string, d: nat, n: nat)
    requires 0 < d && n <= |run| && (Zeros(d) + run)[..|run|] == run
    ensures forall i | 0 <= i < n :: run[i] == '0'
  {
    if n > 0 {
      AllZero(run, d, n - 1);
      assert run[n - 1] == (Zeros(d) + run)[n - 1];
    }
  }

  lemma CutAtSpace(key: string, full: string)
    requires KeyOf(key, full) && key != "" && IsSpace(key[|key| - 1])
    ensures Truncate(PadRuns(StripRight(key))) != key
  {
    StripRightMeans(key);
    var s := StripRight(key);
    var rest := full[|s|..];
    assert |s| < |key| <= NAME_SORT_KEY_MAX_LENGTH && rest[0] == key[|s|] && StartsOpen(rest);
    hide PadRuns, StripRight, LowerCase, StartsDark, StartsOpen, IsSpace;
    assert full == s + rest;
    PrefixIsPadded(s, rest);
  }

  lemma PlainNormal(key: string)
    requires Lower(key) == key && StartsDark(key) && ArticleLength(key) == 0
    ensures Normal(key) == StripRight(key)
  {
    assert key[0..] == key && StripLeft(key) == key;
    hide Lower, StripRight;
  }

  /** With no article in front, recomputing a key only strips the cut and pads its last run. */
  lemma WithoutArticle(key: string, full: string)
    requires KeyOf(key, full) && ArticleLength(key) == 0
    ensures SortKey(key) == key <==> Settled(key)
  {
    LowerCasePrefix(key, full);
    PlainNormal(key);
    if key != "" && IsSpace(key[|key| - 1]) {
      CutAtSpace(key, full);
    } else {
      var q, run, rest := PadOfKey(key, full);
      assert StripRight(key) == key;
      hide PadRuns, StripRight, Truncate, ZFill;
      CutRun(key, q, run);
    }
    hide PadRuns, StripRight, WholeRun, ArticleLength, Normal, Truncate;
  }

  lemma LowerCasePrefix(key: string, full: string)
    requires KeyOf(key, full)
    ensures Lower(key) == key && StartsDark(key) && key <= full && |key| <= NAME_SORT_KEY_MAX_LENGTH
  {
    assert LowerCase(key);
    LowerCaseStays(key);
  }

  lemma CutRun(key: string, q: string, run: string)
    requires key == q + run && |run| == TrailingRun(key) && run == key[|q|..] && Digits(run)
    requires |key| <= NAME_SORT_KEY_MAX_LENGTH && (0 < |run| < PADDED ==> |key| == NAME_SORT_KEY_MAX_LENGTH)
    ensures Truncate(q + (if run == "" then "" else ZFill(run))) == key <==> WholeRun(key)
  {
    hide TrailingRun;
    if run == "" {
    } else if |run| >= PADDED {
      assert ZFill(run) == run;
    } else {
      ShiftedZeros(run, PADDED - |run|);
      CutShortRun(key, q, run, Zeros(PADDED - |run|) + run);
    }
  }

  lemma CutShortRun(key: string, q: string, run: string, padded: string)
    requires key == q + run && |key| == NAME_SORT_KEY_MAX_LENGTH && |padded| > |run|
    ensures Truncate(q + padded) == key <==> padded[..|run|] == run
  {
    var whole := q + padded;
    assert whole[..|key|] == q + padded[..|run|];
    assert key[|q|..] == run && (q + padded[..|run|])[|q|..] == padded[..|run|];
  }

  /** What is left of a key once something before a space has been dropped cannot pad back
      to the key. */
  lemma DroppedDiffers(key: string, full: string, i: nat, j: nat)
    requires KeyOf(key, full) && 0 < i <= j <= |key| && IsSpace(key[i - 1]) && (j < |key| ==> IsSpace(key[j]))
    ensures Truncate(PadRuns(key[i..j])) != key
  {
    hide PadRuns, LowerCase, StartsDark, EndsOpen, TrailingRun, Digits, IsSpace, Truncate;
    var q, run, rest := Parts(key, full);
    OpenAtSpace(key, i);
    if j < |key| {
      DroppedClean(key, full, i, j, rest);
    } else {
      assert key[i..j] == key[i..];
      if run == "" {
        assert q == key;
        DroppedClean(key, full, i, j, rest);
      } else {
        DroppedBeforeRun(key, full, i, q, run, rest);
      }
    }
  }

  lemma OpenAtSpace(key: string, i: nat)
    requires 0 < i <= |key| && IsSpace(key[i - 1])
    ensures EndsOpen(key[..i])
  {
  }

  lemma DroppedClean(key: string, full: string, i: nat, j: nat, rest: string)
    requires PadRuns(full) == full && full == key + rest && |key| <= NAME_SORT_KEY_MAX_LENGTH
    requires 0 < i <= j <= |key| && EndsOpen(key[..i])
    requires if j < |key| then IsSpace(key[j]) else EndsOpen(key)
    ensures Truncate(PadRuns(key[i..j])) != key
  {
    hide PadRuns;
    var p, s, t := key[..i], key[i..j], key[j..] + rest;
    assert full == p + s + t;
    if j < |key| {
      assert t[0] == key[j];
    } else {
      assert s == "" || s[|s| - 1] == key[|key| - 1];
    }
    PieceIsPadded(p, s, t);
  }

  lemma DroppedBeforeRun(key: string, full: string, i: nat, q: string, run: string, rest: string)
    requires PadRuns(full) == full && full == key + rest && key == q + run && run != "" && Digits(run) && EndsOpen(q)
    requires 0 < i <= |key| && IsSpace(key[i - 1]) && EndsOpen(key[..i])
    ensures Truncate(PadRuns(key[i..])) != key
  {
    hide PadRuns;
    assert forall k | |q| <= k < |key| :: IsDigit(key[k]);
    assert i <= |q|;
    var p, q' := key[..i], q[i..];
    assert key[i..] == q' + run && EndsOpen(q') && full == p + q' + (run + rest);
    hide EndsOpen, Digits, IsDigit;
    PieceIsPadded(p, q', run + rest);
    PadBeforeRun(q', run);
    PadOfRun(run);
    assert !IsDigit(q[|q| - 1]) by { LastIsOpen(q); }
    LastBeforeRun(key, q, q', run);
  }

  lemma LastIsOpen(q: string)
    requires q != "" && EndsOpen(q)
    ensures !IsDigit(q[|q| - 1])
  {
  }

  lemma LastBeforeRun(key: string, q: string, q': string, run: string)
    requires key == q + run && q != "" && !IsDigit(q[|q| - 1]) && |q'| < |q| && Digits(ZFill(run))
    ensures Truncate(q' + ZFill(run)) != key
  {
    hide ZFill;
    var padded := Truncate(q' + ZFill(run));
    if |padded| == |key| {
      assert padded[|q| - 1] == ZFill(run)[|q| - 1 - |q'|];
    }
  }

  /** Dropping an article, and the spaces behind it, starts the text just after a space. */
  lemma AfterArticle(key: string) returns (i: nat)
    requires ArticleLength(key) > 0
    ensures 0 < i <= |key| && StripLeft(DropArticle(key)) == key[i..] && IsSpace(key[i - 1])
  {
    var a := ArticleLength(key);
    var dropped := key[a..];
    assert IsSpace(dropped[0]);
    StripLeftMeans(dropped);
    StripLeftStarts(dropped);
    hide StripLeft, ArticleLength, IsSpace;
    var left := StripLeft(dropped);
    i := |key| - |left|;
    assert left == dropped[|dropped| - |left|..] == key[i..];
    assert left != dropped;
    assert key[i - 1] == dropped[|dropped| - |left| - 1];
  }

  lemma StripTail(key: string, i: nat) returns (j: nat)
    requires i <= |key|
    ensures i <= j <= |key| && StripRight(key[i..]) == key[i..j] && (j < |key| ==> IsSpace(key[j]))
  {
    var left := key[i..];
    StripRightMeans(left);
    var s := StripRight(left);
    j := i + |s|;
    hide StripRight, IsSpace;
    assert s == left[..|s|] == key[i..j];
  }

  lemma WithArticle(key: string, full: string)
    requires KeyOf(key, full) && ArticleLength(key) > 0
    ensures SortKey(key) != key
  {
    LowerCasePrefix(key, full);
    var i := AfterArticle(key);
    var j := StripTail(key, i);
    hide PadRuns, LowerCase, ArticleLength, Lower, IsSpace, DropArticle, StripLeft, StripRight, KeyOf, Truncate;
    assert SortKey(key) == Truncate(PadRuns(StripRight(StripLeft(DropArticle(key)))));
    hide SortKey;
    DroppedDiffers(key, full, i, j);
  }

  lemma KeySettles(name: string)
    ensures SortKey(SortKey(name)) == SortKey(name) <==> Settled(SortKey(name))
  {
    var full := KeysAreCut(name);
    if ArticleLength(SortKey(name)) == 0 {
      WithoutArticle(SortKey(name), full);
    } else {
      WithArticle(SortKey(name), full);
    }
  }

  /** Naming a row that is synced, or has no key yet, leaves it synced exactly when the new
      name's key settles or, if that key is blank, when the old name's key was blank too. */
  lemma RenameKeepsSyncExactly(row: Row, value: Option<string>)
    requires row.key.None? || row.Synced()
    ensures var key := ComputeNameSortKey(value);
            Renamed(row, value).Synced() <==> if key != "" then Settled(key) else ComputeNameSortKey(row.name) == ""
  {
    KeySettles(value.GetOr(""));
    hide SortKey, Settled;
  }

  /** A row that has lost sync ignores later names until one happens to match its key. */
  lemma LostSyncStays(row: Row, value: Option<string>)
    requires row.key.Some? && !row.Synced()
    ensures Renamed(row, value).key == row.key
    ensures Renamed(row, value).Synced() <==> row.key == Some(ComputeNameSortKey(value))
  {
  }

  lemma WordKey(text: string)
    requires |text| < 10 && forall i | 0 <= i < |text| :: !IsDigit(text[i])
    ensures PadRuns(text) == text && Truncate(text) == text
    decreases |text|
  {
    if text != "" {
      WordKey(text[1..]);
      assert RunLength(text) == 0 && [text[0]] + text[1..] == text;
    }
  }

  lemma DropsWord(article: string, rest: string)
    requires article in {"a", "the"} && rest != "" && !IsSpace(rest[0]) && !IsSpace(rest[|rest| - 1])
    ensures Strip(DropArticle(article + " " + rest)) == rest
  {
    var text := article + " " + rest;
    assert text[..|article|] == article && text[|article|] == ' ';
    assert ArticleAt(text, |article|);
    if article == "the" { assert text[1] == 'h' && text[2] == 'e'; }
    assert ArticleLength(text) == |article|;
    hide ArticleLength;
    var spaced := " " + rest;
    assert DropArticle(text) == spaced && spaced[0] == ' ' && spaced[1..] == rest;
    assert StripLeft(rest) == rest && StripLeft(spaced) == StripLeft(spaced[1..]);
  }

  lemma Lowered(name: string, low: string)
    requires |name| == |low| && forall i | 0 <= i < |name| :: LowerChar(name[i]) == low[i]
    ensures Lower(name) == low
  {
  }

  lemma KeyOfPhrase(name: string, article: string, rest: string)
    requires article in {"a", "the"} && rest != "" && !IsSpace(rest[0]) && !IsSpace(rest[|rest| - 1])
    requires Lower(name) == article + " " + rest && |rest| < 10 && forall i | 0 <= i < |rest| :: !IsDigit(rest[i])
    ensures SortKey(name) == rest
  {
    DropsWord(article, rest);
    WordKey(rest);
    hide Strip, DropArticle, PadRuns, Truncate, Lower;
  }

  lemma ATeam()
    ensures SortKey("The A Team") == "a team" && SortKey("a team") == "team"
  {
    hide SortKey;
    assert "the" + " " + "a team" == "the a team" && "a" + " " + "team" == "a team";
    Lowered("The A Team", "the a team");
    Lowered("a team", "a team");
    KeyOfPhrase("The A Team", "the", "a team");
    KeyOfPhrase("a team", "a", "team");
  }

  /** "The A Team" keeps one article of its two in its key, and the inner assignment takes
      the other: the row is given "team", and no longer follows its name. */
  lemma TwoArticlesLoseSync()
    ensures var row := Renamed(Row(None, None), Some("The A Team"));
            row.key == Some("team") && ComputeNameSortKey(row.name) == "a team" && !row.Synced()
  {
    ATeam();
    hide SortKey;
  }

  /** A leading article, with the white space after it, does not count: the rest decides. */
  lemma ArticleIsDropped(name: string, article: string, rest: string)
    requires article in {"the", "a", "an", "le", "la", "les", "el", "los", "las", "il", "lo", "gli", "der", "die", "das", "het"}
    requires rest != "" && IsSpace(rest[0]) && Lower(name) == article + rest
    ensures Normal(name) == Strip(rest)
  {
    var text := article + rest;
    assert text[..|article|] == article && text[|article|] == rest[0];
    assert ArticleAt(text, |article|);
    forall k: nat | k < |article| ensures !ArticleAt(text, k) {
      assert text[k] == article[k];
      LettersOnly(article, k);
    }
    ArticleLengthIs(text, |article|);
    hide ArticleLength, Strip, Lower;
  }

  lemma LettersOnly(article: string, k: nat)
    requires article in ARTICLES && k < |article|
    ensures !IsSpace(article[k])
  {
  }

  lemma ArticleLengthIs(text: string, n: nat)
    requires ArticleAt(text, n) && forall k: nat | k < n :: !ArticleAt(text, k)
    ensures ArticleLength(text) == n
  {
    NoLongArticle(text);
  }

  /** A key is never longer than 500 characters, and shorter ones are not cut. */
  lemma KeyIsCut(name: string)
    ensures var padded := PadRuns(Normal(name));
            SortKey(name) == if |padded| <= 500 then padded else padded[..500]
  {
    hide PadRuns, Normal;
  }
}
