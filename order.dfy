/**
 * The one three-way comparator over the packed integer carrier shared by
 * pieces, squares, piece-squares and moves, and the six relational
 * operators derived from it.  The ordering is that of the integers; no
 * chess meaning enters it.
 */
module Order {

  /** Three-way comparison: -1, 0 or 1 as a is below, equal to or above b. */
  function Cmp(a: int, b: int): (r: int)
    ensures r == -1 || r == 0 || r == 1
    ensures r == 0 <==> a == b
    ensures r < 0 <==> a < b
    ensures r > 0 <==> b < a
  {
    if a < b then -1
    else if a > b then 1
    else 0
  }

  function CmpEq(a: int, b: int): (r: bool)
    ensures r <==> a == b
  {
    Cmp(a, b) == 0
  }

  function CmpNeq(a: int, b: int): (r: bool)
    ensures r <==> a != b
  {
    Cmp(a, b) != 0
  }

  function CmpLt(a: int, b: int): (r: bool)
    ensures r <==> a < b
  {
    Cmp(a, b) < 0
  }

  function CmpGt(a: int, b: int): (r: bool)
    ensures r <==> a > b
  {
    Cmp(a, b) > 0
  }

  function CmpLtEq(a: int, b: int): (r: bool)
    ensures r <==> a <= b
  {
    Cmp(a, b) <= 0
  }

  function CmpGtEq(a: int, b: int): (r: bool)
    ensures r <==> a >= b
  {
    Cmp(a, b) >= 0
  }

  /** Swapping the arguments negates the comparison. */
  lemma CmpAntisymmetric(a: int, b: int)
    ensures Cmp(b, a) == -Cmp(a, b)
  {
  }

  /** The comparator is transitive: it orders the carrier. */
  lemma CmpTransitive(a: int, b: int, c: int)
    ensures Cmp(a, b) <= 0 && Cmp(b, c) <= 0 ==> Cmp(a, c) <= 0
    ensures Cmp(a, b) < 0 && Cmp(b, c) < 0 ==> Cmp(a, c) < 0
  {
  }

  /** Exactly one of below, equal and above holds. */
  lemma CmpTrichotomy(a: int, b: int)
    ensures (CmpLt(a, b) && !CmpEq(a, b) && !CmpGt(a, b))
         || (!CmpLt(a, b) && CmpEq(a, b) && !CmpGt(a, b))
         || (!CmpLt(a, b) && !CmpEq(a, b) && CmpGt(a, b))
  {
  }

  /** The non-strict operators and inequality are the unions of the strict ones with equality. */
  lemma CmpOperatorsAgree(a: int, b: int)
    ensures CmpLtEq(a, b) == (CmpLt(a, b) || CmpEq(a, b))
    ensures CmpGtEq(a, b) == (CmpGt(a, b) || CmpEq(a, b))
    ensures CmpNeq(a, b) == !CmpEq(a, b)
    ensures CmpLt(a, b) == CmpGt(b, a)
  {
  }
}
