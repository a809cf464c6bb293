/** The solver's A* heuristic: the least total Manhattan distance over all
    one-to-one assignments of boxes to goals. The Python code tries every
    permutation; the model picks the goal of the first box and recurses,
    and the lemmas show that this is the same minimum. */
module Heuristic {
  import opened Grid

  predicate Distinct(xs: seq<Pos>)
  {
    forall i, j | 0 <= i < j < |xs| :: xs[i] != xs[j]
  }

  /** `ms` lists every goal exactly once: box i of an enumeration of the
      boxes goes to goal `ms[i]`. */
  ghost predicate IsAssignment(ms: seq<Pos>, goals: set<Pos>)
  {
    Distinct(ms) && forall g :: g in ms <==> g in goals
  }

  /** `gs` without its element at index `j`. */
  function Remove(gs: seq<Pos>, j: nat): (r: seq<Pos>)
    requires j < |gs|
    ensures |r| == |gs| - 1
    ensures multiset(r) == multiset(gs) - multiset{gs[j]}
  {
    assert gs == gs[..j] + [gs[j]] + gs[j + 1..];
    gs[..j] + gs[j + 1..]
  }

  /** The cost of sending box `bs[i]` to goal `ms[i]` for every i. */
  function PairCost(bs: seq<Pos>, ms: seq<Pos>): nat
    requires |bs| == |ms|
  {
    if bs == [] then 0 else Manhattan(bs[0], ms[0]) + PairCost(bs[1..], ms[1..])
  }

  function Min(a: nat, b: nat): nat
  {
    if a <= b then a else b
  }

  /** The cheapest matching of the boxes `bs` to the goals `gs`. */
  function MinMatch(bs: seq<Pos>, gs: seq<Pos>): nat
    requires |bs| == |gs|
    decreases |bs|, |gs| + 1
  {
    if bs == [] then 0 else BestFrom(bs, gs, 0)
  }

  /** The cheapest matching in which the first box goes to one of
      `gs[j..]`. */
  function BestFrom(bs: seq<Pos>, gs: seq<Pos>, j: nat): nat
    requires |bs| == |gs| > 0 && j < |gs|
    decreases |bs|, |gs| - j
  {
    var here := Manhattan(bs[0], gs[j]) + MinMatch(bs[1..], Remove(gs, j));
    if j == |gs| - 1 then here else Min(here, BestFrom(bs, gs, j + 1))
  }

  /** `_heuristic`, for as many goals as boxes. It is never more than the
      cost of the first permutation tried, which sends the i-th listed box
      to the i-th listed goal. */
  function Heuristic(boxes: set<Pos>, goals: set<Pos>): (h: nat)
    requires |boxes| == |goals|
    ensures h <= PairCost(Enumerate(boxes), Enumerate(goals))
  {
    MinMatchLowerBound(Enumerate(boxes), Enumerate(goals), Enumerate(goals));
    MinMatch(Enumerate(boxes), Enumerate(goals))
  }

  lemma {:induction false} BestFromLe(bs: seq<Pos>, gs: seq<Pos>, j: nat, k: nat)
    requires |bs| == |gs| > 0 && j <= k < |gs|
    ensures BestFrom(bs, gs, j) <= Manhattan(bs[0], gs[k]) + MinMatch(bs[1..], Remove(gs, k))
    decreases k - j
  {
    if j < k {
      BestFromLe(bs, gs, j + 1, k);
      BestFromStep(bs, gs, j);
    } else {
      BestFromHere(bs, gs, j);
    }
  }

  lemma BestFromHere(bs: seq<Pos>, gs: seq<Pos>, j: nat)
    requires |bs| == |gs| > 0 && j < |gs|
    ensures BestFrom(bs, gs, j) <= Manhattan(bs[0], gs[j]) + MinMatch(bs[1..], Remove(gs, j))
  {
  }

  lemma BestFromStep(bs: seq<Pos>, gs: seq<Pos>, j: nat)
    requires |bs| == |gs| > 0 && j + 1 < |gs|
    ensures BestFrom(bs, gs, j) <= BestFrom(bs, gs, j + 1)
  {
  }

  lemma {:induction false} BestFromAttained(bs: seq<Pos>, gs: seq<Pos>, j: nat) returns (k: nat)
    requires |bs| == |gs| > 0 && j < |gs|
    ensures j <= k < |gs|
    ensures BestFrom(bs, gs, j) == Manhattan(bs[0], gs[k]) + MinMatch(bs[1..], Remove(gs, k))
    decreases |gs| - j
  {
    if j == |gs| - 1 {
      k := j;
    } else {
      var here := Manhattan(bs[0], gs[j]) + MinMatch(bs[1..], Remove(gs, j));
      if here <= BestFrom(bs, gs, j + 1) {
        k := j;
      } else {
        k := BestFromAttained(bs, gs, j + 1);
      }
    }
  }

  /** No matching of the boxes to a rearrangement of the goals is cheaper
      than MinMatch. */
  lemma {:induction false} MinMatchLowerBound(bs: seq<Pos>, gs: seq<Pos>, ms: seq<Pos>)
    requires |bs| == |gs| == |ms| && multiset(ms) == multiset(gs)
    ensures MinMatch(bs, gs) <= PairCost(bs, ms)
  {
    if bs != [] {
      assert ms[0] in multiset(gs);
      var k :| 0 <= k < |gs| && gs[k] == ms[0];
      assert ms == [ms[0]] + ms[1..];
      assert multiset(ms[1..]) == multiset(Remove(gs, k));
      MinMatchLowerBound(bs[1..], Remove(gs, k), ms[1..]);
      BestFromLe(bs, gs, 0, k);
    }
  }

  /** Some rearrangement of the goals costs exactly MinMatch. */
  lemma {:induction false} MinMatchAttained(bs: seq<Pos>, gs: seq<Pos>) returns (ms: seq<Pos>)
    requires |bs| == |gs|
    ensures |ms| == |gs| && multiset(ms) == multiset(gs)
    ensures PairCost(bs, ms) == MinMatch(bs, gs)
    decreases |bs|
  {
    if bs == [] {
      ms := [];
    } else {
      var k := BestFromAttained(bs, gs, 0);
      var rest := MinMatchAttained(bs[1..], Remove(gs, k));
      ms := [gs[k]] + rest;
      ConsCost(bs, gs[k], rest);
      ConsMultiset(gs[k], rest);
      AddBack(multiset(gs), gs[k]);
    }
  }

  lemma ConsCost(bs: seq<Pos>, g: Pos, rest: seq<Pos>)
    requires |bs| == |rest| + 1
    ensures PairCost(bs, [g] + rest) == Manhattan(bs[0], g) + PairCost(bs[1..], rest)
  {
    assert ([g] + rest)[1..] == rest;
  }

  lemma ConsMultiset(x: Pos, r: seq<Pos>)
    ensures multiset([x] + r) == multiset{x} + multiset(r)
  {
  }

  lemma AddBack(m: multiset<Pos>, x: Pos)
    requires x in m
    ensures multiset{x} + (m - multiset{x}) == m
  {
  }

  /** A distinct sequence holds each of its elements once. */
  lemma {:induction false} DistinctCount(xs: seq<Pos>, x: Pos)
    requires Distinct(xs)
    ensures multiset(xs)[x] == if x in xs then 1 else 0
  {
    if xs != [] {
      assert xs == [xs[0]] + xs[1..];
      DistinctCount(xs[1..], x);
    }
  }

  /** An assignment is a rearrangement of the enumerated goals. */
  lemma AssignmentIsPermutation(ms: seq<Pos>, goals: set<Pos>)
    requires IsAssignment(ms, goals)
    ensures multiset(ms) == multiset(Enumerate(goals))
  {
    var gs := Enumerate(goals);
    forall x
      ensures multiset(ms)[x] == multiset(gs)[x]
    {
      DistinctCount(ms, x);
      DistinctCount(gs, x);
    }
  }

  /** The heuristic never exceeds the cost of any one-to-one assignment
      of boxes to goals. */
  lemma HeuristicIsLowerBound(boxes: set<Pos>, goals: set<Pos>, ms: seq<Pos>)
    requires |boxes| == |goals| && IsAssignment(ms, goals)
    ensures |ms| == |Enumerate(boxes)|
    ensures Heuristic(boxes, goals) <= PairCost(Enumerate(boxes), ms)
  {
    AssignmentIsPermutation(ms, goals);
    assert |ms| == |multiset(ms)| == |multiset(Enumerate(goals))|;
    MinMatchLowerBound(Enumerate(boxes), Enumerate(goals), ms);
  }

  /** The heuristic is the cost of some one-to-one assignment. */
  lemma HeuristicIsAttained(boxes: set<Pos>, goals: set<Pos>) returns (ms: seq<Pos>)
    requires |boxes| == |goals|
    ensures IsAssignment(ms, goals) && |ms| == |Enumerate(boxes)|
    ensures Heuristic(boxes, goals) == PairCost(Enumerate(boxes), ms)
  {
    var gs := Enumerate(goals);
    ms := MinMatchAttained(Enumerate(boxes), gs);
    forall x
      ensures multiset(ms)[x] <= 1
    {
      DistinctCount(gs, x);
    }
    forall i, j | 0 <= i < j < |ms|
      ensures ms[i] != ms[j]
    {
      if ms[i] == ms[j] {
        CountTwo(ms, i, j);
      }
    }
    forall g
      ensures g in ms <==> g in goals
    {
      assert g in ms <==> g in multiset(ms);
      assert g in gs <==> g in multiset(gs);
    }
  }

  /** An element at two indices is counted at least twice. */
  lemma CountTwo(xs: seq<Pos>, i: nat, j: nat)
    requires i < j < |xs| && xs[i] == xs[j]
    ensures multiset(xs)[xs[i]] >= 2
  {
    assert xs == xs[..j] + [xs[j]] + xs[j + 1..];
    assert xs[i] in xs[..j];
  }

  /** No boxes: no cost. */
  lemma HeuristicEmpty()
    ensures Heuristic({}, {}) == 0
  {
  }

  /** Every box on a goal: no cost. */
  lemma HeuristicSolved(boxes: set<Pos>, goals: set<Pos>)
    requires |boxes| == |goals| && boxes <= goals
    ensures Heuristic(boxes, goals) == 0
  {
    SubsetSameSize(boxes, goals);
    var bs := Enumerate(boxes);
    ZeroSelfCost(bs);
    MinMatchLowerBound(bs, bs, bs);
  }

  lemma SubsetSameSize(a: set<Pos>, b: set<Pos>)
    requires a <= b && |a| == |b|
    ensures a == b
  {
    assert b == a + (b - a);
    assert |b - a| == 0;
  }

  lemma {:induction false} ZeroSelfCost(bs: seq<Pos>)
    ensures PairCost(bs, bs) == 0
  {
    if bs != [] {
      ZeroSelfCost(bs[1..]);
    }
  }
}
