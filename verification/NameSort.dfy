/** The natural-sort key of a title, and the column that is meant to follow the name.
    Text is ASCII. */
module NameSort {
  import opened Common

  const NAME_SORT_KEY_MAX_LENGTH := 500
  const PADDED := 12

  const ARTICLES: set<string> :=
    {"the", "a", "an", "le", "la", "les", "el", "los", "las", "il", "lo", "gli", "der", "die", "das", "het"}

  predicate IsDigit(c: char) { '0' <= c <= '9' }

  predicate IsSpace(c: char) { c == ' ' || '\t' <= c <= '\r' || '\U{1C}' <= c <= '\U{1F}' }

  function LowerChar(c: char): char { if 'A' <= c <= 'Z' then c - 'A' + 'a' else c }

  function Lower(text: string): string { seq(|text|, i requires 0 <= i < |text| => LowerChar(text[i])) }

  function StripLeft(text: string): (r: string)
    ensures |r| <= |text| && r == text[|text| - |r|..]
  {
    if text != "" && IsSpace(text[0]) then StripLeft(text[1..]) else text
  }

  function StripRight(text: string): (r: string)
    ensures r <= text && (r == "" || !IsSpace(r[|r| - 1]))
  {
    if text != "" && IsSpace(text[|text| - 1]) then StripRight(text[..|text| - 1]) else text
  }

  function Strip(text: string): string { StripRight(StripLeft(text)) }

  /** The length of a leading article that white space follows, or 0. */
  predicate ArticleAt(text: string, n: nat) {
    n < |text| && text[..n] in ARTICLES && IsSpace(text[n])
  }

  function ArticleLength(text: string): (n: nat)
    ensures n == 0 || ArticleAt(text, n)
    ensures n == 0 ==> forall k: nat :: !ArticleAt(text, k)
  {
    if ArticleAt(text, 1) then 1
    else if ArticleAt(text, 2) then 2
    else if ArticleAt(text, 3) then 3
    else (NoLongArticle(text); 0)
  }

  lemma NoLongArticle(text: string)
    ensures forall k: nat | ArticleAt(text, k) :: 1 <= k <= 3
  {
    forall k: nat | ArticleAt(text, k) ensures 1 <= k <= 3 {
      var a := text[..k];
      assert |a| == k;
    }
  }

  function DropArticle(text: string): string { text[ArticleLength(text)..] }

  /** How many digits the text starts with. */
  function RunLength(text: string): (n: nat)
    ensures n <= |text| && (forall i | 0 <= i < n :: IsDigit(text[i])) && (n < |text| ==> !IsDigit(text[n]))
  {
    if text == "" || !IsDigit(text[0]) then 0 else 1 + RunLength(text[1..])
  }

  function Zeros(n: nat): string { seq(n, _ => '0') }

  function ZFill(run: string): string { Zeros(if |run| < PADDED then PADDED - |run| else 0) + run }

  function PadRuns(text: string): string
    decreases |text|
  {
    if text == "" then ""
    else
      var n := RunLength(text);
      if n == 0 then [text[0]] + PadRuns(text[1..]) else ZFill(text[..n]) + PadRuns(text[n..])
  }

  function Truncate(text: string): string {
    if |text| > NAME_SORT_KEY_MAX_LENGTH then text[..NAME_SORT_KEY_MAX_LENGTH] else text
  }

  function Normal(name: string): string { Strip(DropArticle(Lower(name))) }

  function SortKey(name: string): string { Truncate(PadRuns(Normal(name))) }

  function ComputeNameSortKey(name: Option<string>): string { SortKey(name.GetOr("")) }

  // ---- The self-syncing column ----

  datatype Row = Row(name: Option<string>, key: Option<string>)
  {
    predicate Synced() { key == Some(ComputeNameSortKey(name)) }
  }

  /** Assigning the key: a blank falls back to the name the row has just then. */
  function Keyed(row: Row, value: string): Row {
    row.(key := Some(ComputeNameSortKey(if value != "" then Some(value) else row.name)))
  }

  /** Assigning the name: the key follows only from a synced or missing key, and it is
      assigned, with its own rule, while the old name is still in place. */
  function Renamed(row: Row, value: Option<string>): Row {
    var keyed := if row.key.None? || row.Synced() then Keyed(row, ComputeNameSortKey(value)) else row;
    keyed.(name := value)
  }

  class Rom {
    var name: Option<string>
    var key: Option<string>

    method SetNameSortKey(value: string)
      modifies this`key
      ensures Row(name, key) == Keyed(old(Row(name, key)), value)
    {
      hide ComputeNameSortKey;
      key := Some(ComputeNameSortKey(if value != "" then Some(value) else name));
    }

    method SetName(value: Option<string>)
      modifies this
      ensures Row(name, key) == Renamed(old(Row(name, key)), value)
    {
      hide ComputeNameSortKey;
      if key.None? || key == Some(ComputeNameSortKey(name)) {
        SetNameSortKey(ComputeNameSortKey(value));
      }
      name := value;
    }
  }
}
