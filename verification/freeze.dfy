/** Freeze deadlocks: a box is frozen when, on each axis, both of its
    neighbours are walls or frozen boxes. The solver grows the frozen set
    by repeated sweeps over the boxes until a sweep adds nothing, and
    reports a deadlock when a frozen box is off every goal. */
module Freeze {
  import opened Grid

  predicate Blocked(walls: set<Pos>, frozen: set<Pos>, p: Pos)
  {
    p in walls || p in frozen
  }

  /** Both horizontal and both vertical neighbours of `b` are blocked. */
  predicate Stuck(walls: set<Pos>, frozen: set<Pos>, b: Pos)
  {
    && Blocked(walls, frozen, (b.0, b.1 - 1)) && Blocked(walls, frozen, (b.0, b.1 + 1))
    && Blocked(walls, frozen, (b.0 - 1, b.1)) && Blocked(walls, frozen, (b.0 + 1, b.1))
  }

  /** More frozen boxes never unfreeze a box. */
  lemma StuckMonotone(walls: set<Pos>, a: set<Pos>, b: set<Pos>, x: Pos)
    requires a <= b && Stuck(walls, a, x)
    ensures Stuck(walls, b, x)
  {
  }

  /** The frozen set `s` holds every box stuck against `s`. */
  ghost predicate PreFixpoint(walls: set<Pos>, boxes: set<Pos>, s: set<Pos>)
  {
    forall b | b in boxes && Stuck(walls, s, b) :: b in s
  }

  /** The boxes of `s` are exactly the boxes stuck against `s`. */
  ghost predicate Fixpoint(walls: set<Pos>, boxes: set<Pos>, s: set<Pos>)
  {
    s <= boxes && forall b | b in boxes :: b in s <==> Stuck(walls, s, b)
  }

  /** Every box of `s` is stuck against `s`. */
  ghost predicate SelfStuck(walls: set<Pos>, s: set<Pos>)
  {
    forall b | b in s :: Stuck(walls, s, b)
  }

  /** One sweep over the boxes `bs`, in order: a box stuck against the
      frozen set so far joins it at once, so later boxes in the same sweep
      see it. Returns the new frozen set and whether anything changed. */
  function Sweep(walls: set<Pos>, bs: seq<Pos>, frozen: set<Pos>): (r: (set<Pos>, bool))
    ensures frozen <= r.0
    ensures forall x | x in r.0 && x !in frozen :: x in bs
    ensures r.1 <==> r.0 != frozen
    ensures SelfStuck(walls, frozen) ==> SelfStuck(walls, r.0)
    ensures !r.1 ==> forall i | 0 <= i < |bs| && bs[i] !in frozen :: !Stuck(walls, frozen, bs[i])
  {
    if bs == [] then (frozen, false)
    else
      var b := bs[0];
      if b in frozen || !Stuck(walls, frozen, b) then
        var r := Sweep(walls, bs[1..], frozen);
        assert forall i | 1 <= i < |bs| :: bs[i] == bs[1..][i - 1];
        r
      else
        var r := Sweep(walls, bs[1..], frozen + {b});
        GrowSelfStuck(walls, frozen, b);
        (r.0, true)
  }

  lemma GrowSelfStuck(walls: set<Pos>, frozen: set<Pos>, b: Pos)
    requires Stuck(walls, frozen, b)
    ensures SelfStuck(walls, frozen) ==> SelfStuck(walls, frozen + {b})
  {
    if SelfStuck(walls, frozen) {
      forall x | x in frozen + {b}
        ensures Stuck(walls, frozen + {b}, x)
      {
        StuckMonotone(walls, frozen, frozen + {b}, x);
      }
    }
  }

  /** A sweep never leaves a set closed under freezing. */
  lemma {:induction false} SweepBelow(walls: set<Pos>, boxes: set<Pos>, bs: seq<Pos>, frozen: set<Pos>, s: set<Pos>)
    requires forall i | 0 <= i < |bs| :: bs[i] in boxes
    requires frozen <= s && PreFixpoint(walls, boxes, s)
    ensures Sweep(walls, bs, frozen).0 <= s
  {
    if bs != [] {
      var b := bs[0];
      if b in frozen || !Stuck(walls, frozen, b) {
        SweepBelow(walls, boxes, bs[1..], frozen, s);
      } else {
        StuckMonotone(walls, frozen, s, b);
        SweepBelow(walls, boxes, bs[1..], frozen + {b}, s);
      }
    }
  }

  lemma SubsetSmaller(boxes: set<Pos>, a: set<Pos>, b: set<Pos>)
    requires a <= b <= boxes && a != b
    ensures |boxes - b| < |boxes - a|
  {
    var x :| x in b && x !in a;
    assert boxes - b <= boxes - a;
    assert boxes - a == (boxes - b) + ((boxes - a) - (boxes - b));
    assert x in (boxes - a) - (boxes - b);
  }

  /** Sweeps until one changes nothing. */
  function Settle(walls: set<Pos>, boxes: set<Pos>, frozen: set<Pos>): (r: set<Pos>)
    requires frozen <= boxes && SelfStuck(walls, frozen)
    ensures frozen <= r
    ensures Fixpoint(walls, boxes, r)
    decreases |boxes - frozen|
  {
    var bs := Enumerate(boxes);
    var sw := Sweep(walls, bs, frozen);
    if !sw.1 then
      NoChangeIsFixpoint(walls, boxes, frozen);
      frozen
    else
      SubsetSmaller(boxes, frozen, sw.0);
      Settle(walls, boxes, sw.0)
  }

  lemma NoChangeIsFixpoint(walls: set<Pos>, boxes: set<Pos>, frozen: set<Pos>)
    requires frozen <= boxes && SelfStuck(walls, frozen)
    ensures !Sweep(walls, Enumerate(boxes), frozen).1 ==> Fixpoint(walls, boxes, frozen)
  {
    var bs := Enumerate(boxes);
    if !Sweep(walls, bs, frozen).1 {
      forall b | b in boxes && b !in frozen
        ensures !Stuck(walls, frozen, b)
      {
        var i :| 0 <= i < |bs| && bs[i] == b;
      }
    }
  }

  /** Settling from below a closed set stays below it. */
  lemma {:induction false} SettleBelow(walls: set<Pos>, boxes: set<Pos>, frozen: set<Pos>, s: set<Pos>)
    requires frozen <= boxes && SelfStuck(walls, frozen)
    requires frozen <= s && PreFixpoint(walls, boxes, s)
    ensures Settle(walls, boxes, frozen) <= s
    decreases |boxes - frozen|
  {
    var bs := Enumerate(boxes);
    var sw := Sweep(walls, bs, frozen);
    if sw.1 {
      SweepBelow(walls, boxes, bs, frozen, s);
      SubsetSmaller(boxes, frozen, sw.0);
      SettleBelow(walls, boxes, sw.0, s);
    }
  }

  /** The frozen boxes of `_has_freeze_deadlock`. */
  function Frozen(walls: set<Pos>, boxes: set<Pos>): (r: set<Pos>)
    ensures r <= boxes
    ensures Fixpoint(walls, boxes, r)
  {
    Settle(walls, boxes, {})
  }

  /** The frozen set is the least fixpoint: it lies inside every set
      closed under freezing, so the order of the sweeps does not matter. */
  lemma FrozenIsLeast(walls: set<Pos>, boxes: set<Pos>, s: set<Pos>)
    requires PreFixpoint(walls, boxes, s)
    ensures Frozen(walls, boxes) <= s
  {
    SettleBelow(walls, boxes, {}, s);
  }

  /** A box walled in on all four sides is frozen, whatever the other
      boxes do. */
  lemma WalledInIsFrozen(walls: set<Pos>, boxes: set<Pos>, b: Pos)
    requires b in boxes && Stuck(walls, {}, b)
    ensures b in Frozen(walls, boxes)
  {
    StuckMonotone(walls, {}, Frozen(walls, boxes), b);
  }

  /** `_has_freeze_deadlock`: some frozen box is not on a goal. */
  function HasFreezeDeadlock(walls: set<Pos>, goals: set<Pos>, boxes: set<Pos>): (r: bool)
    ensures r <==> exists b | b in boxes :: b in Frozen(walls, boxes) && b !in goals
    ensures boxes <= goals ==> !r
  {
    !(Frozen(walls, boxes) <= goals)
  }
}
