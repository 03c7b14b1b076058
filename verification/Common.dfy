/** Small vocabulary shared by every module. */
module Common {

  datatype Option<+T> = None | Some(value: T) {
    function GetOr(default: T): T {
      match this
      case Some(v) => v
      case None => default
    }
  }

  /** The least member of a set of ids: what a query without an order returns first. */
  function Least(ids: set<nat>): (m: nat)
    requires ids != {}
    ensures m in ids && forall x | x in ids :: m <= x
  {
    LeastExists(ids);
    var m :| m in ids && forall x | x in ids :: m <= x;
    m
  }

  lemma LeastExists(ids: set<nat>)
    requires ids != {}
    ensures exists m :: m in ids && forall x | x in ids :: m <= x
  {
    var y :| y in ids;
    var below := set x | x in ids && x < y;
    if below != {} {
      assert y !in below && below <= ids;
      LeastExists(below);
      var m :| m in below && forall x | x in below :: m <= x;
      assert forall x | x in ids :: x in below || y <= x;
      assert forall x | x in ids :: m <= x;
    } else {
      assert forall x | x in ids :: x !in below;
    }
  }

  function Members<T(==)>(s: seq<T>): set<T> { set x | x in s }

  /** A sequence without repeats has as many members as positions. */
  lemma DistinctCount<T>(s: seq<T>)
    requires forall i, j | 0 <= i < j < |s| :: s[i] != s[j]
    ensures |Members(s)| == |s|
  {
    if s == [] {
      assert Members(s) == {};
    } else {
      var front, last := s[..|s| - 1], s[|s| - 1];
      DistinctCount(front);
      assert s == front + [last];
      assert Members(s) == Members(front) + {last};
      assert last !in front;
    }
  }

  // ---- Decimal numerals ----

  function Digit(d: nat): char
    requires d < 10
  {
    '0' + d as char
  }

  function Decimal(n: nat): (text: string)
    ensures text != ""
  {
    if n < 10 then [Digit(n)] else Decimal(n / 10) + [Digit(n % 10)]
  }

  function ParseNat(text: string): Option<nat> {
    if text == "" || !('0' <= text[|text| - 1] <= '9') then None
    else
      var d := (text[|text| - 1] - '0') as nat;
      if |text| == 1 then Some(d)
      else match ParseNat(text[..|text| - 1])
           case None => None
           case Some(v) => Some(10 * v + d)
  }

  /** A numeral reads back as its number, so different numbers have different numerals. */
  lemma {:induction false} DecimalParses(n: nat)
    ensures ParseNat(Decimal(n)) == Some(n) && ':' !in Decimal(n)
  {
    if n >= 10 {
      DecimalParses(n / 10);
      var text := Decimal(n);
      assert text[..|text| - 1] == Decimal(n / 10);
    }
  }
}
