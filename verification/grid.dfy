/** Grid coordinates, the four push directions and the row-major order
    on coordinates (Python's tuple comparison). */
module Grid {

  /** (row, column) */
  type Pos = (int, int)

  datatype Dir = Up | Down | Left | Right

  /** The fixed direction order of the solver: up, down, left, right. */
  const Dirs: seq<Dir> := [Up, Down, Left, Right]

  function RowDelta(d: Dir): int
  {
    match d
    case Up => -1
    case Down => 1
    case _ => 0
  }

  function ColDelta(d: Dir): int
  {
    match d
    case Left => -1
    case Right => 1
    case _ => 0
  }

  /** The cell one step from `p` in direction `d`. */
  function Step(p: Pos, d: Dir): Pos
  {
    (p.0 + RowDelta(d), p.1 + ColDelta(d))
  }

  function Opposite(d: Dir): (o: Dir)
    ensures forall p: Pos :: Step(Step(p, d), o) == p
  {
    match d
    case Up => Down
    case Down => Up
    case Left => Right
    case Right => Left
  }

  /** Stepping back then forward returns to the start. */
  lemma BackForth(p: Pos, d: Dir)
    ensures Step(Step(p, Opposite(d)), d) == p
  {
  }

  function Abs(x: int): nat
  {
    if x < 0 then -x else x
  }

  function Manhattan(p: Pos, q: Pos): nat
  {
    Abs(p.0 - q.0) + Abs(p.1 - q.1)
  }

  /** Two cells are 4-adjacent. */
  predicate Adjacent(p: Pos, q: Pos)
  {
    Manhattan(p, q) == 1
  }

  lemma StepAdjacent(p: Pos, d: Dir)
    ensures Adjacent(p, Step(p, d))
  {
  }

  /** Python's `<` on `(int, int)` tuples. */
  predicate Less(p: Pos, q: Pos)
  {
    p.0 < q.0 || (p.0 == q.0 && p.1 < q.1)
  }

  predicate LessEq(p: Pos, q: Pos)
  {
    Less(p, q) || p == q
  }

  predicate IsMin(m: Pos, s: set<Pos>)
  {
    m in s && forall x | x in s :: LessEq(m, x)
  }

  /** A set has at most one minimum. */
  lemma MinUnique(a: Pos, b: Pos, s: set<Pos>)
    requires IsMin(a, s) && IsMin(b, s)
    ensures a == b
  {
    assert LessEq(a, b) && LessEq(b, a);
  }

  /** Every finite non-empty set of cells has a row-major minimum. */
  lemma {:induction false} MinExists(s: set<Pos>)
    requires s != {}
    ensures exists m :: IsMin(m, s)
  {
    var x :| x in s;
    if s == {x} {
      assert IsMin(x, s);
    } else {
      MinExists(s - {x});
      var m :| IsMin(m, s - {x});
      if Less(x, m) {
        forall y | y in s
          ensures LessEq(x, y)
        {
          if y != x {
            assert LessEq(m, y);
          }
        }
        assert IsMin(x, s);
      } else {
        assert IsMin(m, s);
      }
    }
  }

  /** The row-major minimum of a non-empty set. */
  function MinPos(s: set<Pos>): (m: Pos)
    requires s != {}
    ensures IsMin(m, s)
  {
    MinExists(s);
    var m :| IsMin(m, s);
    m
  }

  /** A duplicate-free listing of a set, in row-major order. It stands
      for Python's iteration over a frozenset, whose order is
      unspecified. */
  function Enumerate(s: set<Pos>): (xs: seq<Pos>)
    ensures |xs| == |s|
    ensures forall x :: x in xs <==> x in s
    ensures forall i, j | 0 <= i < j < |xs| :: xs[i] != xs[j]
    decreases |s|
  {
    if s == {} then []
    else
      var m := MinPos(s);
      [m] + Enumerate(s - {m})
  }

  /** Every entry of the enumeration is a member of the set. */
  lemma EnumerateIndex(s: set<Pos>)
    ensures forall k | 0 <= k < |Enumerate(s)| :: Enumerate(s)[k] in s
  {
    var xs := Enumerate(s);
    forall k | 0 <= k < |xs|
      ensures xs[k] in s
    {
      assert xs[k] in xs;
    }
  }
}
