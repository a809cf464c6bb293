/** The breadth-first flood fill shared by three routines of the solver:
    the player's walk region (`_player_reachable`, `_normalize_player`)
    and the reverse-push flood from a goal (`_compute_dead_cells`). One
    run yields the region, the BFS parent links, the BFS depth of every
    cell and the row-major least cell of the region. */
module Flood {
  import opened Grid
  import opened Wrappers

  /** How a flood leaves a cell.
      Walk: the player steps onto a floor cell that is not blocked
      (blocked = walls and every box).
      Pull: a box seen at `p` could have been pushed there from
      `p + d`, with the player standing on `p + 2d`; both cells must be
      floor and not wall. */
  datatype Rule =
    | Walk(floors: set<Pos>, blocked: set<Pos>)
    | Pull(floors: set<Pos>, walls: set<Pos>)

  /** A cell the flood may enter. */
  predicate Valid(rule: Rule, x: Pos)
  {
    match rule
    case Walk(floors, blocked) => x in floors && x !in blocked
    case Pull(floors, walls) => x in floors && x !in walls
  }

  /** The flood may go from `p` to `Step(p, d)`. */
  predicate Allowed(rule: Rule, p: Pos, d: Dir)
  {
    match rule
    case Walk(_, _) => Valid(rule, Step(p, d))
    case Pull(_, _) => Valid(rule, Step(p, d)) && Valid(rule, Step(Step(p, d), d))
  }

  predicate Edge(rule: Rule, p: Pos, q: Pos)
  {
    exists d: Dir :: Allowed(rule, p, d) && Step(p, d) == q
  }

  /** Every cell the flood may enter from `x` is in `s`. */
  predicate Expanded(rule: Rule, x: Pos, s: set<Pos>)
  {
    forall d: Dir :: Allowed(rule, x, d) ==> Step(x, d) in s
  }

  /** `s` is closed under flood steps. */
  predicate Closed(rule: Rule, s: set<Pos>)
  {
    forall x {:trigger Expanded(rule, x, s)} | x in s :: Expanded(rule, x, s)
  }

  /** The flood's bookkeeping: `visited`, the BFS parent map, the BFS
      depth of each visited cell, and the least cell dequeued so far. */
  datatype Bfs = Bfs(visited: set<Pos>, parent: map<Pos, Pos>, depth: map<Pos, nat>, least: Pos)

  /** Well-formedness kept by every step of the flood from `root`. */
  predicate Wf(rule: Rule, root: Pos, b: Bfs, queue: seq<Pos>)
  {
    && root in b.visited
    && (forall x | x in b.visited && x != root :: Valid(rule, x))
    && (forall x | x in queue :: x in b.visited)
    && b.parent.Keys == b.visited - {root}
    && ParentLinks(rule, b)
    && b.depth.Keys == b.visited
    && b.depth[root] == 0
    && DepthLinks(b)
    && DepthBounded(b)
    && b.least in b.visited
  }

  /** Every parent link is a flood step from a visited cell. */
  predicate ParentLinks(rule: Rule, b: Bfs)
  {
    forall q {:trigger b.parent[q]} | q in b.parent :: b.parent[q] in b.visited && Edge(rule, b.parent[q], q)
  }

  /** A cell lies one BFS level below its parent. */
  predicate DepthLinks(b: Bfs)
  {
    forall q {:trigger b.parent[q]} | q in b.parent ::
      q in b.depth && b.parent[q] in b.depth && b.depth[q] == b.depth[b.parent[q]] + 1
  }

  /** No depth exceeds the number of parent links. */
  predicate DepthBounded(b: Bfs)
  {
    forall x | x in b.depth :: b.depth[x] <= |b.parent|
  }

  /** Wf plus: every visited cell still waiting in the queue is the only
      kind not yet expanded or compared with `least`. */
  predicate Inv(rule: Rule, root: Pos, b: Bfs, queue: seq<Pos>)
  {
    && Wf(rule, root, b, queue)
    && LeastSoFar(b.visited, b.least, queue)
    && ExpandedSoFar(rule, b.visited, queue)
  }

  /** `least` is below every visited cell already dequeued. */
  predicate LeastSoFar(v: set<Pos>, least: Pos, queue: seq<Pos>)
  {
    forall x | x in v :: x in queue || LessEq(least, x)
  }

  /** Every visited cell already dequeued has been expanded. */
  predicate ExpandedSoFar(rule: Rule, v: set<Pos>, queue: seq<Pos>)
  {
    forall x {:trigger Expanded(rule, x, v)} | x in v :: x in queue || Expanded(rule, x, v)
  }

  lemma ShrinkingRest(floors: set<Pos>, v: set<Pos>, v': set<Pos>)
    requires v <= v' && v' - v <= floors
    ensures v' != v ==> |floors - v'| < |floors - v|
  {
    if v' != v {
      var x :| x in v' && x !in v;
      var rest := (floors - v) - {x};
      assert floors - v' <= rest;
      assert |rest| == |floors - v| - 1;
      SubsetCard(floors - v', rest);
    }
  }

  lemma SubsetCard(a: set<Pos>, b: set<Pos>)
    requires a <= b
    ensures |a| <= |b|
  {
    assert b == a + (b - a);
  }

  /** Record `nb` as visited from `p`, one BFS level below it. */
  function Visit(b: Bfs, p: Pos, nb: Pos): Bfs
    requires p in b.depth
  {
    Bfs(b.visited + {nb}, b.parent[nb := p], b.depth[nb := b.depth[p] + 1], b.least)
  }

  lemma VisitKeepsWf(rule: Rule, root: Pos, p: Pos, b: Bfs, queue: seq<Pos>, d: Dir)
    requires Wf(rule, root, b, queue) && p in b.visited
    requires Allowed(rule, p, d) && Step(p, d) !in b.visited
    ensures Wf(rule, root, Visit(b, p, Step(p, d)), queue + [Step(p, d)])
  {
    var nb := Step(p, d);
    var b' := Visit(b, p, nb);
    assert Valid(rule, nb);
    assert Edge(rule, p, nb);
    assert nb != root;
    assert b'.parent.Keys == b'.visited - {root};
    assert b'.depth.Keys == b'.visited;
    assert forall x | x in queue + [nb] :: x in queue || x == nb;
    VisitParentLinks(rule, p, b, nb);
    VisitDepthLinks(p, b, nb);
    VisitDepthBounded(p, b, nb);
  }

  lemma VisitParentLinks(rule: Rule, p: Pos, b: Bfs, nb: Pos)
    requires ParentLinks(rule, b) && p in b.visited && p in b.depth
    requires Edge(rule, p, nb) && nb !in b.parent
    ensures ParentLinks(rule, Visit(b, p, nb))
  {
    var b' := Visit(b, p, nb);
    forall q | q in b'.parent
      ensures b'.parent[q] in b'.visited && Edge(rule, b'.parent[q], q)
    {
      if q != nb {
        assert b'.parent[q] == b.parent[q];
      }
    }
  }

  lemma VisitDepthLinks(p: Pos, b: Bfs, nb: Pos)
    requires DepthLinks(b) && p in b.depth && nb !in b.depth && nb !in b.parent
    ensures DepthLinks(Visit(b, p, nb))
  {
    var b' := Visit(b, p, nb);
    forall q | q in b'.parent
      ensures q in b'.depth && b'.parent[q] in b'.depth && b'.depth[q] == b'.depth[b'.parent[q]] + 1
    {
      if q != nb {
        assert b'.parent[q] == b.parent[q];
        assert b.parent[q] != nb;
      }
    }
  }

  lemma VisitDepthBounded(p: Pos, b: Bfs, nb: Pos)
    requires DepthBounded(b) && p in b.depth && nb !in b.parent
    ensures DepthBounded(Visit(b, p, nb))
  {
    var b' := Visit(b, p, nb);
    assert b'.parent.Keys == b.parent.Keys + {nb};
    assert |b'.parent| == |b.parent| + 1;
    forall x | x in b'.depth
      ensures b'.depth[x] <= |b'.parent|
    {
      if x != nb {
        assert b'.depth[x] == b.depth[x];
      }
    }
  }

  /** Look one step from the dequeued cell `p` in direction `d`:
      enqueue the neighbour when the rule allows it and it is new. */
  function TryDir(rule: Rule, root: Pos, p: Pos, b: Bfs, queue: seq<Pos>, d: Dir): (r: (Bfs, seq<Pos>))
    requires Wf(rule, root, b, queue) && p in b.visited
    ensures Wf(rule, root, r.0, r.1)
    ensures b.visited <= r.0.visited && r.0.visited - b.visited <= rule.floors
    ensures r.0.visited == b.visited ==> r.1 == queue
    ensures forall x | x in queue :: x in r.1
    ensures forall x | x in r.0.visited - b.visited :: x in r.1 && Edge(rule, p, x)
    ensures Allowed(rule, p, d) ==> Step(p, d) in r.0.visited
    ensures r.0.least == b.least
  {
    var nb := Step(p, d);
    if Allowed(rule, p, d) && nb !in b.visited then
      VisitKeepsWf(rule, root, p, b, queue, d);
      (Visit(b, p, nb), queue + [nb])
    else
      (b, queue)
  }

  /** Try the directions `ds` in order from the dequeued cell `p`. */
  function ExpandDirs(rule: Rule, root: Pos, p: Pos, b: Bfs, queue: seq<Pos>, ds: seq<Dir>): (r: (Bfs, seq<Pos>))
    requires Wf(rule, root, b, queue) && p in b.visited
    ensures Wf(rule, root, r.0, r.1)
    ensures b.visited <= r.0.visited && r.0.visited - b.visited <= rule.floors
    ensures r.0.visited == b.visited ==> r.1 == queue
    ensures forall x | x in queue :: x in r.1
    ensures forall x | x in r.0.visited - b.visited :: x in r.1 && Edge(rule, p, x)
    ensures forall d | d in ds && Allowed(rule, p, d) :: Step(p, d) in r.0.visited
    ensures r.0.least == b.least
    decreases |ds|
  {
    if ds == [] then (b, queue)
    else
      var r1 := TryDir(rule, root, p, b, queue, ds[0]);
      ExpandDirs(rule, root, p, r1.0, r1.1, ds[1..])
  }

  lemma DirsListed()
    ensures forall d: Dir :: d in Dirs
  {
    forall d: Dir
      ensures d in Dirs
    {
      match d
      case Up => assert Dirs[0] == d;
      case Down => assert Dirs[1] == d;
      case Left => assert Dirs[2] == d;
      case Right => assert Dirs[3] == d;
    }
  }

  /** The four directions in the solver's order. */
  function AllDirs(): (ds: seq<Dir>)
    ensures forall d: Dir :: d in ds
  {
    DirsListed();
    Dirs
  }

  /** One turn of the BFS loop: dequeue the head, compare it with the
      least cell so far, expand it in the order up, down, left, right. */
  function Pop(rule: Rule, root: Pos, b: Bfs, queue: seq<Pos>): (r: (Bfs, seq<Pos>))
    requires Inv(rule, root, b, queue) && queue != []
    ensures Inv(rule, root, r.0, r.1)
    ensures b.visited <= r.0.visited && r.0.visited - b.visited <= rule.floors
    ensures r.0.visited == b.visited ==> |r.1| < |queue|
    ensures forall x | x in r.0.visited - b.visited :: Edge(rule, queue[0], x)
  {
    var p := queue[0];
    var b1 := b.(least := if Less(p, b.least) then p else b.least);
    TailWf(rule, root, b, queue, b1);
    var r := ExpandDirs(rule, root, p, b1, queue[1..], AllDirs());
    PopKeepsInv(rule, root, b, queue, b1, r.0, r.1);
    r
  }

  lemma AllDirsExpanded(rule: Rule, p: Pos, v: set<Pos>)
    requires Allowed(rule, p, Up) ==> Step(p, Up) in v
    requires Allowed(rule, p, Down) ==> Step(p, Down) in v
    requires Allowed(rule, p, Left) ==> Step(p, Left) in v
    requires Allowed(rule, p, Right) ==> Step(p, Right) in v
    ensures Expanded(rule, p, v)
  {
    forall d: Dir | Allowed(rule, p, d)
      ensures Step(p, d) in v
    {
      match d
      case Up =>
      case Down =>
      case Left =>
      case Right =>
    }
  }

  lemma TailWf(rule: Rule, root: Pos, b: Bfs, queue: seq<Pos>, b1: Bfs)
    requires Wf(rule, root, b, queue) && queue != []
    requires b1 == b.(least := if Less(queue[0], b.least) then queue[0] else b.least)
    ensures Wf(rule, root, b1, queue[1..]) && queue[0] in b1.visited
  {
    assert forall x | x in queue[1..] :: x in queue;
  }

  lemma PopKeepsInv(rule: Rule, root: Pos, b: Bfs, queue: seq<Pos>, b1: Bfs, b2: Bfs, q2: seq<Pos>)
    requires queue != []
    requires LeastSoFar(b.visited, b.least, queue) && ExpandedSoFar(rule, b.visited, queue)
    requires b1 == b.(least := if Less(queue[0], b.least) then queue[0] else b.least)
    requires Wf(rule, root, b2, q2) && b1.visited <= b2.visited && b2.least == b1.least
    requires forall x | x in queue[1..] :: x in q2
    requires forall x | x in b2.visited - b1.visited :: x in q2
    requires Expanded(rule, queue[0], b2.visited)
    ensures Inv(rule, root, b2, q2)
  {
    LeastKept(b.visited, queue, b.least, b1.least, b2.visited, q2);
    ExpandedKept(rule, b.visited, queue, b2.visited, q2);
  }

  lemma LeastKept(v: set<Pos>, queue: seq<Pos>, l: Pos, l1: Pos, v2: set<Pos>, q2: seq<Pos>)
    requires queue != []
    requires LeastSoFar(v, l, queue)
    requires LessEq(l1, l) && LessEq(l1, queue[0])
    requires v <= v2
    requires forall x | x in queue[1..] :: x in q2
    requires forall x | x in v2 - v :: x in q2
    ensures LeastSoFar(v2, l1, q2)
  {
    forall x | x in v2 && x !in q2
      ensures LessEq(l1, x)
    {
      if x != queue[0] {
        assert x !in queue[1..];
        assert LessEq(l, x);
      }
    }
  }

  lemma ExpandedKept(rule: Rule, v: set<Pos>, queue: seq<Pos>, v2: set<Pos>, q2: seq<Pos>)
    requires queue != []
    requires ExpandedSoFar(rule, v, queue)
    requires v <= v2
    requires forall x | x in queue[1..] :: x in q2
    requires forall x | x in v2 - v :: x in q2
    requires Expanded(rule, queue[0], v2)
    ensures ExpandedSoFar(rule, v2, q2)
  {
    forall x | x in v2 && x !in q2
      ensures Expanded(rule, x, v2)
    {
      if x != queue[0] {
        assert x !in queue[1..];
        assert Expanded(rule, x, v);
      }
    }
  }

  /** The BFS main loop: run until the queue is empty. */
  function Explore(rule: Rule, root: Pos, b: Bfs, queue: seq<Pos>): (r: Bfs)
    requires Inv(rule, root, b, queue)
    ensures Wf(rule, root, r, [])
    ensures b.visited <= r.visited
    ensures Closed(rule, r.visited)
    ensures IsMin(r.least, r.visited)
    decreases |rule.floors - b.visited|, |queue|
  {
    if queue == [] then b
    else
      var r1 := Pop(rule, root, b, queue);
      ShrinkingRest(rule.floors, b.visited, r1.0.visited);
      Explore(rule, root, r1.0, r1.1)
  }

  /** The flood's state before the first dequeue: only `root` is seen. */
  function Start(root: Pos): Bfs
  {
    Bfs({root}, map[], map[root := 0], root)
  }

  /** The whole flood from `root`. */
  function Run(rule: Rule, root: Pos): (b: Bfs)
    ensures Wf(rule, root, b, [])
    ensures Closed(rule, b.visited)
    ensures IsMin(b.least, b.visited)
  {
    Explore(rule, root, Start(root), [root])
  }

  /** Explore adds nothing outside a closed set holding what it has seen. */
  lemma {:induction false} ExploreLeast(rule: Rule, root: Pos, b: Bfs, queue: seq<Pos>, s: set<Pos>)
    requires Inv(rule, root, b, queue)
    requires b.visited <= s && Closed(rule, s)
    ensures Explore(rule, root, b, queue).visited <= s
    decreases |rule.floors - b.visited|, |queue|
  {
    if queue != [] {
      var p := queue[0];
      var r1 := Pop(rule, root, b, queue);
      assert Expanded(rule, p, s);
      forall x | x in r1.0.visited
        ensures x in s
      {
        if x !in b.visited {
          assert Edge(rule, p, x);
          var d :| Allowed(rule, p, d) && Step(p, d) == x;
        }
      }
      ShrinkingRest(rule.floors, b.visited, r1.0.visited);
      ExploreLeast(rule, root, r1.0, r1.1, s);
      assert Explore(rule, root, b, queue) == Explore(rule, root, r1.0, r1.1);
    }
  }

  /** The flood region is the least set holding `root` and closed under
      the rule's steps. */
  lemma RunLeast(rule: Rule, root: Pos, s: set<Pos>)
    requires root in s && Closed(rule, s)
    ensures Run(rule, root).visited <= s
  {
    ExploreLeast(rule, root, Start(root), [root], s);
  }

  /** Python's `_reconstruct_path`: follow parent links back from `cur`
      until `start`. `fuel` bounds the number of links followed; `None`
      is the case where the Python loop would raise or not end. */
  function Trace(parent: map<Pos, Pos>, start: Pos, cur: Pos, fuel: nat): (r: Option<seq<Pos>>)
    ensures r.Some? ==> |r.value| >= 1 && r.value[0] == start && r.value[|r.value| - 1] == cur
    ensures r.Some? ==> forall i | 1 <= i < |r.value| ::
      r.value[i] in parent && parent[r.value[i]] == r.value[i - 1]
    decreases fuel
  {
    if cur == start then Some([cur])
    else if fuel == 0 || cur !in parent then None
    else
      match Trace(parent, start, parent[cur], fuel - 1)
      case None => None
      case Some(path) => Some(path + [cur])
  }

  /** A chain of parent links has at most one link per key, so
      `|parent|` links always suffice on a parent map built by a flood. */
  function ReconstructPath(parent: map<Pos, Pos>, start: Pos, end: Pos): (r: Option<seq<Pos>>)
    ensures r.Some? ==> |r.value| >= 1 && r.value[0] == start && r.value[|r.value| - 1] == end
    ensures r.Some? ==> forall i | 1 <= i < |r.value| ::
      r.value[i] in parent && parent[r.value[i]] == r.value[i - 1]
    ensures start == end ==> r == Some([start])
  {
    Trace(parent, start, end, |parent|)
  }

  /** On the flood's parent map, tracing back from a visited cell reaches
      the root within its BFS depth, through visited cells only. */
  lemma {:induction false} TraceReachesRoot(rule: Rule, root: Pos, b: Bfs, x: Pos, fuel: nat)
    requires Wf(rule, root, b, [])
    requires x in b.visited && fuel >= b.depth[x]
    ensures Trace(b.parent, root, x, fuel).Some?
    ensures forall y | y in Trace(b.parent, root, x, fuel).value :: y in b.visited
    decreases fuel
  {
    if x != root {
      assert x in b.parent;
      var px := b.parent[x];
      assert DepthLinks(b);
      assert b.depth[x] == b.depth[px] + 1;
      TraceReachesRoot(rule, root, b, px, fuel - 1);
    }
  }

  /** A walk path built from the flood: it starts at `root`, ends at `x`,
      every cell is in the region and every step is one the rule allows. */
  predicate IsFloodPath(rule: Rule, region: set<Pos>, root: Pos, x: Pos, path: seq<Pos>)
  {
    && |path| >= 1 && path[0] == root && path[|path| - 1] == x
    && (forall i | 0 <= i < |path| :: path[i] in region)
    && (forall i | 0 <= i < |path| - 1 :: Edge(rule, path[i], path[i + 1]))
  }

  lemma ReconstructFromRun(rule: Rule, root: Pos, x: Pos)
    requires x in Run(rule, root).visited
    ensures ReconstructPath(Run(rule, root).parent, root, x).Some?
    ensures IsFloodPath(rule, Run(rule, root).visited, root, x,
                        ReconstructPath(Run(rule, root).parent, root, x).value)
  {
    ReconstructInFlood(rule, root, Run(rule, root), x);
  }

  lemma ReconstructInFlood(rule: Rule, root: Pos, b: Bfs, x: Pos)
    requires Wf(rule, root, b, []) && x in b.visited
    ensures ReconstructPath(b.parent, root, x).Some?
    ensures IsFloodPath(rule, b.visited, root, x, ReconstructPath(b.parent, root, x).value)
  {
    assert DepthBounded(b) && x in b.depth;
    TraceReachesRoot(rule, root, b, x, |b.parent|);
    var path := ReconstructPath(b.parent, root, x).value;
    TraceEdges(rule, b, path);
    forall i | 0 <= i < |path|
      ensures path[i] in b.visited
    {
      assert path[i] in path;
    }
  }

  lemma TraceEdges(rule: Rule, b: Bfs, path: seq<Pos>)
    requires ParentLinks(rule, b)
    requires forall i | 1 <= i < |path| :: path[i] in b.parent && b.parent[path[i]] == path[i - 1]
    ensures forall i | 0 <= i < |path| - 1 :: Edge(rule, path[i], path[i + 1])
  {
    forall i | 0 <= i < |path| - 1
      ensures Edge(rule, path[i], path[i + 1])
    {
      assert path[i + 1] in b.parent && b.parent[path[i + 1]] == path[i];
    }
  }

  /** Each flood step moves to a 4-adjacent cell. */
  lemma EdgeAdjacent(rule: Rule, p: Pos, q: Pos)
    requires Edge(rule, p, q)
    ensures Adjacent(p, q)
  {
    var d :| Allowed(rule, p, d) && Step(p, d) == q;
    StepAdjacent(p, d);
  }

  /** Walking is symmetric: a step back onto a walkable cell is allowed. */
  lemma WalkBack(w: Rule, x: Pos, d: Dir)
    requires w.Walk? && Valid(w, x)
    ensures Allowed(w, Step(x, d), Opposite(d))
  {
    assert Step(Step(x, d), Opposite(d)) == x;
  }

  /** Removing a closed set from a closed set of walkable cells leaves a
      closed set. */
  lemma ClosedDifference(w: Rule, ra: set<Pos>, rb: set<Pos>)
    requires w.Walk? && Closed(w, ra) && Closed(w, rb)
    requires forall x | x in ra :: Valid(w, x)
    ensures Closed(w, ra - rb)
  {
    forall x | x in ra - rb
      ensures Expanded(w, x, ra - rb)
    {
      assert Expanded(w, x, ra);
      forall d: Dir | Allowed(w, x, d)
        ensures Step(x, d) in ra - rb
      {
        var y := Step(x, d);
        if y in rb {
          assert Expanded(w, y, rb);
          WalkBack(w, x, d);
        }
      }
    }
  }

  /** Every start inside a walk region floods the same region, when the
      first start is itself a walkable cell. */
  lemma SameRegion(floors: set<Pos>, blocked: set<Pos>, a: Pos, b: Pos)
    requires a in floors && a !in blocked
    requires b in Run(Walk(floors, blocked), a).visited
    ensures Run(Walk(floors, blocked), b).visited == Run(Walk(floors, blocked), a).visited
  {
    var w := Walk(floors, blocked);
    var ra := Run(w, a).visited;
    var rb := Run(w, b).visited;
    RunLeast(w, b, ra);
    assert forall x | x in ra :: Valid(w, x) by {
      forall x | x in ra
        ensures Valid(w, x)
      {
        if x != a {
          assert x in ra && x != a;
        }
      }
    }
    if a !in rb {
      ClosedDifference(w, ra, rb);
      RunLeast(w, a, ra - rb);
      assert false;
    }
    RunLeast(w, a, rb);
    SubsetAntisym(ra, rb);
  }

  lemma SubsetAntisym(a: set<Pos>, b: set<Pos>)
    requires a <= b && b <= a
    ensures a == b
  {
  }
}
