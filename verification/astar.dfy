/** The A* search of `solve_level` over push states, the solution it
    rebuilds from its `came_from` links, and `solve` (parse, then search).
    The priority queue is an abstract multiset of entries: a pop removes
    any entry whose (f, g) pair is least, which is all the Python heap
    promises when states never compare as smaller. */
module Astar {
  import opened Grid
  import opened Wrappers
  import Flood
  import L = Level
  import H = Heuristic
  import F = Freeze
  import opened Pushes

  datatype Entry = Entry(f: nat, g: nat, state: State)

  datatype Solution = Solution(pushes: seq<PushAction>, statesExplored: nat)

  /** The loop's bookkeeping: the open heap, the `came_from` links, the
      best push counts found so far and the expanded states. */
  datatype Search = Search(
    heap: seq<Entry>,
    cameFrom: map<State, (State, PushAction)>,
    gScore: map<State, nat>,
    closed: set<State>)

  /** Python's order on (f, g) pairs. */
  predicate EntryLe(a: Entry, b: Entry)
  {
    a.f < b.f || (a.f == b.f && a.g <= b.g)
  }

  predicate IsMinEntry(heap: seq<Entry>, i: int)
  {
    0 <= i < |heap| && forall j | 0 <= j < |heap| :: EntryLe(heap[i], heap[j])
  }

  lemma {:induction false} MinEntryExists(heap: seq<Entry>)
    requires heap != []
    ensures exists i :: IsMinEntry(heap, i)
  {
    if |heap| == 1 {
      assert IsMinEntry(heap, 0);
    } else {
      MinEntryExists(heap[1..]);
      var k :| IsMinEntry(heap[1..], k);
      assert heap[1..][k] == heap[k + 1];
      assert forall j | 1 <= j < |heap| :: heap[j] == heap[1..][j - 1];
      if EntryLe(heap[0], heap[k + 1]) {
        assert IsMinEntry(heap, 0);
      } else {
        assert IsMinEntry(heap, k + 1);
      }
    }
  }

  /** Every state the search has seen is the start or has a link back. */
  ghost predicate Known(init: State, sr: Search, s: State)
  {
    s == init || s in sr.cameFrom
  }

  /** The cell the player really stands on in a state: where the last
      pushed box was, or the level's player cell for the start. */
  function Actual(level: L.Level, sr: Search, s: State): Pos
  {
    if s in sr.cameFrom then sr.cameFrom[s].1.boxFrom else level.initialPlayer
  }

  /** `path` walks from the normalised player cell of `p` to `target`. */
  ghost predicate PathOk(level: L.Level, p: State, path: seq<Pos>, target: Pos)
  {
    && |path| >= 1
    && path[0] == p.player
    && path[|path| - 1] == target
    && IsWalk(level, p.boxes, path)
  }

  /** The box of `a` moves one step onto a cell that is no wall, no box and
      no dead cell, turning the boxes of `p` into those of `s`. */
  ghost predicate BoxOk(level: L.Level, p: State, a: PushAction, s: State)
  {
    && a.boxFrom in p.boxes
    && a.boxTo == Step(a.boxFrom, a.dir)
    && a.boxTo !in level.walls && a.boxTo !in p.boxes && a.boxTo !in level.deadCells
    && s.boxes == Moved(p.boxes, a)
  }

  /** `a` is a push the player can make from state `p` (walking from its
      normalised cell) and it leads to state `s`. */
  ghost predicate StepOk(level: L.Level, p: State, a: PushAction, s: State)
  {
    BoxOk(level, p, a, s) && PathOk(level, p, a.playerPath, Step(a.boxFrom, Opposite(a.dir)))
  }

  /** The link recorded for `s`: an expanded predecessor with a smaller
      push count, and a legal push from it that leads to `s`. */
  ghost predicate Link(level: L.Level, sr: Search, s: State)
    requires s in sr.cameFrom
  {
    var p := sr.cameFrom[s].0;
    && p in sr.closed && p in sr.gScore && s in sr.gScore && sr.gScore[p] < sr.gScore[s]
    && StepOk(level, p, sr.cameFrom[s].1, s)
  }

  ghost predicate LinksOk(level: L.Level, sr: Search)
  {
    forall s {:trigger sr.cameFrom[s]} | s in sr.cameFrom :: Link(level, sr, s)
  }

  ghost predicate InitOk(level: L.Level, init: State, sr: Search)
  {
    && init !in sr.cameFrom && init in sr.gScore
    && init.boxes == level.initialBoxes
    && (init in sr.closed || sr.cameFrom == map[])
  }

  ghost predicate HeapOk(level: L.Level, init: State, sr: Search)
  {
    forall i | 0 <= i < |sr.heap| ::
      && sr.heap[i].state in sr.gScore
      && sr.gScore[sr.heap[i].state] <= sr.heap[i].g
      && Known(init, sr, sr.heap[i].state)
      && |sr.heap[i].state.boxes| == |level.goals|
  }

  ghost predicate ClosedOk(init: State, sr: Search)
  {
    forall c | c in sr.closed :: c in sr.gScore && Known(init, sr, c)
  }

  /** Every state's player is the normalised cell of where the player
      really stands. */
  ghost predicate NormOk(level: L.Level, init: State, sr: Search)
  {
    && init.player == Normalize(level, level.initialPlayer, level.initialBoxes)
    && forall s {:trigger sr.cameFrom[s]} | s in sr.cameFrom ::
         s.player == Normalize(level, sr.cameFrom[s].1.boxFrom, s.boxes)
  }

  ghost predicate Inv(level: L.Level, init: State, sr: Search)
  {
    InitOk(level, init, sr) && HeapOk(level, init, sr) && ClosedOk(init, sr) && LinksOk(level, sr)
  }

  /** The expansion of `state`, reached in `g` pushes, may proceed. */
  ghost predicate Ready(level: L.Level, init: State, sr: Search, state: State, g: nat)
  {
    && Inv(level, init, sr) && NormOk(level, init, sr)
    && state in sr.closed && init in sr.closed && state in sr.gScore && sr.gScore[state] <= g
    && |state.boxes| == |level.goals|
  }

  /** The search after recording a cheaper way, `g + 1` pushes through
      the expanded `state`, to reach `next`. */
  function Record(sr: Search, state: State, g: nat, next: State, a: PushAction, h: nat): Search
  {
    Search(sr.heap + [Entry(g + 1 + h, g + 1, next)],
           sr.cameFrom[next := (state, a)],
           sr.gScore[next := g + 1],
           sr.closed)
  }

  lemma RecordKeepsLinks(level: L.Level, sr: Search, state: State, g: nat, next: State, a: PushAction, h: nat)
    requires LinksOk(level, sr)
    requires state in sr.closed && state in sr.gScore && sr.gScore[state] <= g
    requires next !in sr.closed
    requires StepOk(level, state, a, next)
    ensures LinksOk(level, Record(sr, state, g, next, a, h))
  {
    var sr' := Record(sr, state, g, next, a, h);
    forall s | s in sr'.cameFrom
      ensures Link(level, sr', s)
    {
      if s != next {
        OldLinkKept(level, sr, state, g, next, a, h, s);
      } else {
        assert sr'.cameFrom[s] == (state, a);
      }
    }
  }

  /** Recording `next` leaves every other link intact: its entry and its
      predecessor's push count do not change, since that predecessor is
      expanded and `next` is not. */
  lemma OldLinkKept(level: L.Level, sr: Search, state: State, g: nat, next: State, a: PushAction, h: nat, s: State)
    requires s in sr.cameFrom && Link(level, sr, s)
    requires s != next && next !in sr.closed
    ensures s in Record(sr, state, g, next, a, h).cameFrom
    ensures Link(level, Record(sr, state, g, next, a, h), s)
  {
    var sr' := Record(sr, state, g, next, a, h);
    var p := sr.cameFrom[s].0;
    assert sr'.cameFrom[s] == sr.cameFrom[s];
    assert p != next;
    assert sr'.gScore[p] == sr.gScore[p];
    assert sr'.gScore[s] == sr.gScore[s];
  }

  lemma RecordKeepsHeap(level: L.Level, init: State, sr: Search, state: State, g: nat, next: State, a: PushAction, h: nat)
    requires HeapOk(level, init, sr)
    requires next in sr.gScore ==> g + 1 < sr.gScore[next]
    requires |next.boxes| == |level.goals|
    ensures HeapOk(level, init, Record(sr, state, g, next, a, h))
  {
    var sr' := Record(sr, state, g, next, a, h);
    forall i | 0 <= i < |sr'.heap|
      ensures sr'.heap[i].state in sr'.gScore
      ensures sr'.gScore[sr'.heap[i].state] <= sr'.heap[i].g
      ensures Known(init, sr', sr'.heap[i].state)
      ensures |sr'.heap[i].state.boxes| == |level.goals|
    {
      if i < |sr.heap| {
        assert sr'.heap[i] == sr.heap[i];
      }
    }
  }

  lemma RecordKeepsInv(level: L.Level, init: State, sr: Search, state: State, g: nat, next: State, a: PushAction, h: nat)
    requires Inv(level, init, sr)
    requires state in sr.closed && init in sr.closed && state in sr.gScore && sr.gScore[state] <= g
    requires next !in sr.closed && (next in sr.gScore ==> g + 1 < sr.gScore[next])
    requires |next.boxes| == |level.goals|
    requires StepOk(level, state, a, next)
    ensures Inv(level, init, Record(sr, state, g, next, a, h))
  {
    RecordKeepsLinks(level, sr, state, g, next, a, h);
    RecordKeepsHeap(level, init, sr, state, g, next, a, h);
  }

  lemma RecordKeepsScore(sr: Search, state: State, g: nat, next: State, a: PushAction, h: nat, x: State)
    requires x in sr.gScore && x in sr.closed && next !in sr.closed
    ensures Record(sr, state, g, next, a, h).closed == sr.closed
    ensures x in Record(sr, state, g, next, a, h).gScore
    ensures Record(sr, state, g, next, a, h).gScore[x] == sr.gScore[x]
  {
  }

  lemma RecordKeepsNorm(level: L.Level, init: State, sr: Search, state: State, g: nat, next: State, a: PushAction, h: nat)
    requires NormOk(level, init, sr)
    requires next.player == Normalize(level, a.boxFrom, next.boxes)
    ensures NormOk(level, init, Record(sr, state, g, next, a, h))
  {
  }

  /** Removing an entry from the heap keeps the invariant. */
  lemma PopKeepsInv(level: L.Level, init: State, sr: Search, i: int)
    requires Inv(level, init, sr) && 0 <= i < |sr.heap|
    ensures Inv(level, init, sr.(heap := sr.heap[..i] + sr.heap[i + 1..]))
  {
    var sr' := sr.(heap := sr.heap[..i] + sr.heap[i + 1..]);
    forall j | 0 <= j < |sr'.heap|
      ensures sr'.heap[j].state in sr'.gScore
      ensures sr'.gScore[sr'.heap[j].state] <= sr'.heap[j].g
      ensures Known(init, sr', sr'.heap[j].state)
      ensures |sr'.heap[j].state.boxes| == |level.goals|
    {
      if j < i {
        assert sr'.heap[j] == sr.heap[j];
      } else {
        assert sr'.heap[j] == sr.heap[j + 1];
      }
    }
    assert LinksOk(level, sr') by {
      forall s | s in sr'.cameFrom
        ensures Link(level, sr', s)
      {
        assert Link(level, sr, s);
      }
    }
  }

  /** Marking a known state expanded keeps the invariant; the first state
      expanded is the start. */
  lemma CloseKeepsInv(level: L.Level, init: State, sr: Search, s: State)
    requires Inv(level, init, sr) && s in sr.gScore && Known(init, sr, s)
    ensures Inv(level, init, sr.(closed := sr.closed + {s}))
    ensures init in sr.closed + {s}
  {
    var sr' := sr.(closed := sr.closed + {s});
    assert LinksOk(level, sr') by {
      forall x | x in sr'.cameFrom
        ensures Link(level, sr', x)
      {
        assert Link(level, sr, x);
      }
    }
  }

  /** `_reconstruct_path` on the expansion's parent map gives the walk
      to any reachable cell. */
  lemma PathPart(level: L.Level, state: State, reach: set<Pos>, parent: map<Pos, Pos>, x: Pos)
    requires (reach, parent) == PlayerReachable(level, state.player, state.boxes)
    requires x in reach
    ensures Flood.ReconstructPath(parent, state.player, x).Some?
    ensures PathOk(level, state, Flood.ReconstructPath(parent, state.player, x).value, x)
  {
    assert parent == PlayerReachable(level, state.player, state.boxes).1;
    assert reach == PlayerReachable(level, state.player, state.boxes).0;
    ReachablePath(level, state.player, state.boxes, x);
  }

  /** An accepted push moves its box as the step predicate says. */
  lemma BoxPart(level: L.Level, state: State, reach: set<Pos>, box: Pos, d: Dir, path: seq<Pos>)
    requires box in state.boxes && Push(level, state, reach, box, d).Some?
    ensures BoxOk(level, state, PushAction(box, Step(box, d), d, path), Push(level, state, reach, box, d).value)
  {
    PushMoves(level, state, reach, box, d);
  }

  /** One (box, direction) candidate of the expansion loop in
      `solve_level`: the successor rule, then the closed-set, freeze and
      push-count checks, then the heap push and the `came_from` link. */
  method TryPush(level: L.Level, init: State, sr: Search, state: State, g: nat,
                 reach: set<Pos>, parent: map<Pos, Pos>, box: Pos, d: Dir)
      returns (out: Search)
    requires Ready(level, init, sr, state, g) && box in state.boxes
    requires (reach, parent) == PlayerReachable(level, state.player, state.boxes)
    ensures Ready(level, init, out, state, g) && out.closed == sr.closed
  {
    out := sr;
    var next := Push(level, state, reach, box, d);
    if next.None? {
      return;
    }
    var ns := next.value;
    if ns in sr.closed {
      return;
    }
    if F.HasFreezeDeadlock(level.walls, level.goals, ns.boxes) {
      return;
    }
    var newG := g + 1;
    if ns in sr.gScore && newG >= sr.gScore[ns] {
      return;
    }
    var h := H.Heuristic(ns.boxes, level.goals);
    PathPart(level, state, reach, parent, Step(box, Opposite(d)));
    var path := Flood.ReconstructPath(parent, state.player, Step(box, Opposite(d))).value;
    var action := PushAction(box, Step(box, d), d, path);
    BoxPart(level, state, reach, box, d, path);
    RecordKeepsInv(level, init, sr, state, g, ns, action, h);
    RecordKeepsNorm(level, init, sr, state, g, ns, action, h);
    RecordKeepsScore(sr, state, g, ns, action, h, state);
    out := Record(sr, state, g, ns, action, h);
  }

  /** The four directions tried on one box, in the solver's order. */
  method ExpandBox(level: L.Level, init: State, sr: Search, state: State, g: nat,
                   rp: (set<Pos>, map<Pos, Pos>), box: Pos)
      returns (out: Search)
    requires Ready(level, init, sr, state, g) && box in state.boxes
    requires rp == PlayerReachable(level, state.player, state.boxes)
    ensures Ready(level, init, out, state, g) && out.closed == sr.closed
  {
    out := sr;
    for j := 0 to |Dirs|
      invariant Ready(level, init, out, state, g) && out.closed == sr.closed
    {
      out := TryPush(level, init, out, state, g, rp.0, rp.1, box, Dirs[j]);
    }
  }

  /** Every direction on each box of `bs` in turn. */
  method ExpandBoxes(level: L.Level, init: State, sr: Search, state: State, g: nat,
                     rp: (set<Pos>, map<Pos, Pos>), bs: seq<Pos>)
      returns (out: Search)
    requires Ready(level, init, sr, state, g)
    requires rp == PlayerReachable(level, state.player, state.boxes)
    requires forall k | 0 <= k < |bs| :: bs[k] in state.boxes
    ensures Ready(level, init, out, state, g) && out.closed == sr.closed
  {
    out := sr;
    for k := 0 to |bs|
      invariant Ready(level, init, out, state, g) && out.closed == sr.closed
    {
      out := ExpandBox(level, init, out, state, g, rp, bs[k]);
    }
  }

  /** The expansion of one state in `solve_level`: the player's region is
      flooded once, then every box is tried in every direction. */
  method Expand(level: L.Level, init: State, sr: Search, state: State, g: nat) returns (out: Search)
    requires Ready(level, init, sr, state, g)
    ensures Ready(level, init, out, state, g) && out.closed == sr.closed
  {
    EnumerateIndex(state.boxes);
    out := ExpandBoxes(level, init, sr, state, g, PlayerReachable(level, state.player, state.boxes), Enumerate(state.boxes));
  }

  /** `_build_solution`: follow the `came_from` links back from `goal` and
      list the pushes from the start onwards. (The Python code appends and
      reverses; prepending gives the same list.) The links' push counts
      strictly decrease, so the walk back ends. */
  method BuildSolution(level: L.Level, init: State, sr: Search, goal: State) returns (pushes: seq<PushAction>)
    requires Inv(level, init, sr) && NormOk(level, init, sr)
    requires goal in sr.closed
    ensures Replays(level, level.initialBoxes, level.initialPlayer, pushes)
    ensures FinalBoxes(level.initialBoxes, pushes) == goal.boxes
  {
    pushes := [];
    var state := goal;
    while state in sr.cameFrom
      invariant Known(init, sr, state) && state in sr.gScore
      invariant Replays(level, state.boxes, Actual(level, sr, state), pushes)
      invariant FinalBoxes(state.boxes, pushes) == goal.boxes
      decreases sr.gScore[state]
    {
      var prev := sr.cameFrom[state].0;
      var action := sr.cameFrom[state].1;
      StepBack(level, init, sr, state, pushes);
      pushes := [action] + pushes;
      state := prev;
    }
  }

  /** One link back: the push of `s`'s link, played from its predecessor,
      followed by `pushes`. */
  lemma StepBack(level: L.Level, init: State, sr: Search, s: State, pushes: seq<PushAction>)
    requires Inv(level, init, sr) && NormOk(level, init, sr)
    requires s in sr.cameFrom
    requires Replays(level, s.boxes, Actual(level, sr, s), pushes)
    ensures var p := sr.cameFrom[s].0;
      && Known(init, sr, p) && p in sr.gScore && sr.gScore[p] < sr.gScore[s]
      && Replays(level, p.boxes, Actual(level, sr, p), [sr.cameFrom[s].1] + pushes)
      && FinalBoxes(p.boxes, [sr.cameFrom[s].1] + pushes) == FinalBoxes(s.boxes, pushes)
  {
    var p := sr.cameFrom[s].0;
    var a := sr.cameFrom[s].1;
    assert Link(level, sr, s);
    assert Actual(level, sr, s) == a.boxFrom;
    KnownNorm(level, init, sr, p);
    LinkIsLegal(level, p, a, s, Actual(level, sr, p));
    ReplayCons(level, p.boxes, Actual(level, sr, p), a, pushes);
  }

  /** An expanded state's player is the normalised cell of where the
      player really stands. */
  lemma KnownNorm(level: L.Level, init: State, sr: Search, p: State)
    requires InitOk(level, init, sr) && ClosedOk(init, sr) && NormOk(level, init, sr)
    requires p in sr.closed
    ensures p.player == Normalize(level, Actual(level, sr, p), p.boxes)
  {
    if p in sr.cameFrom {
      assert p.player == Normalize(level, sr.cameFrom[p].1.boxFrom, p.boxes);
    }
  }

  /** A recorded step from a state whose player is normalised is a legal
      push for the player's real cell. */
  lemma LinkIsLegal(level: L.Level, p: State, a: PushAction, s: State, actual: Pos)
    requires StepOk(level, p, a, s) && p.player == Normalize(level, actual, p.boxes)
    ensures LegalPush(level, p.boxes, actual, a) && Moved(p.boxes, a) == s.boxes
  {
  }

  /** The bookkeeping changes of the main loop leave the player cells
      alone. */
  lemma SameLinksKeepNorm(level: L.Level, init: State, sr: Search, sr': Search)
    requires NormOk(level, init, sr) && sr'.cameFrom == sr.cameFrom
    ensures NormOk(level, init, sr')
  {
  }

  /** The search before the first pop. */
  function Start(init: State, h0: nat): Search
  {
    Search([Entry(h0, 0, init)], map[], map[init := 0], {})
  }

  lemma StartInv(level: L.Level, init: State, h0: nat)
    requires init.boxes == level.initialBoxes && |level.initialBoxes| == |level.goals|
    ensures Inv(level, init, Start(init, h0))
  {
  }

  lemma StartNorm(level: L.Level, init: State, h0: nat)
    requires init.player == Normalize(level, level.initialPlayer, level.initialBoxes)
    ensures NormOk(level, init, Start(init, h0))
  {
  }

  /** `solve_level`: A* over push states, at most `maxStates` expansions.
      A box already on a dead cell fails at once, a level whose boxes all
      sit on goals is solved by no pushes, and a solution found by the
      search is a list of legal pushes from the level's start that leaves
      every box on a goal. */
  method SolveLevel(level: L.Level, maxStates: int) returns (r: Option<Solution>)
    requires |level.initialBoxes| == |level.goals|
    ensures !(level.initialBoxes !! level.deadCells) ==> r == None
    ensures level.initialBoxes !! level.deadCells && level.initialBoxes <= level.goals ==>
      r == Some(Solution([], 0))
    ensures maxStates <= 0 && !(level.initialBoxes <= level.goals) ==> r == None
    ensures r.Some? ==> r.value.statesExplored == 0 || r.value.statesExplored <= maxStates
    ensures r.Some? ==>
      && Replays(level, level.initialBoxes, level.initialPlayer, r.value.pushes)
      && FinalBoxes(level.initialBoxes, r.value.pushes) <= level.goals
  {
    if !(level.initialBoxes !! level.deadCells) {
      return None;
    }
    var init := State(Normalize(level, level.initialPlayer, level.initialBoxes), level.initialBoxes);
    if level.initialBoxes <= level.goals {
      return Some(Solution([], 0));
    }
    var h0 := H.Heuristic(level.initialBoxes, level.goals);
    var sr := Start(init, h0);
    StartInv(level, init, h0);
    StartNorm(level, init, h0);
    var explored := 0;
    while sr.heap != [] && explored < maxStates
      invariant Inv(level, init, sr) && NormOk(level, init, sr)
      invariant 0 <= explored && (explored == 0 || explored <= maxStates)
      decreases maxStates - explored, |sr.heap|
    {
      MinEntryExists(sr.heap);
      var i :| IsMinEntry(sr.heap, i);
      var e := sr.heap[i];
      assert e.state in sr.gScore && sr.gScore[e.state] <= e.g && Known(init, sr, e.state);
      assert |e.state.boxes| == |level.goals|;
      PopKeepsInv(level, init, sr, i);
      var popped := sr.(heap := sr.heap[..i] + sr.heap[i + 1..]);
      SameLinksKeepNorm(level, init, sr, popped);
      sr := popped;
      if e.state in sr.closed {
        continue;
      }
      CloseKeepsInv(level, init, sr, e.state);
      var closed := sr.(closed := sr.closed + {e.state});
      SameLinksKeepNorm(level, init, sr, closed);
      sr := closed;
      explored := explored + 1;
      if e.state.boxes <= level.goals {
        var pushes := BuildSolution(level, init, sr, e.state);
        return Some(Solution(pushes, explored));
      }
      sr := Expand(level, init, sr, e.state, e.g);
    }
    return None;
  }

  /** `solve`: parse the text, then search. A malformed level is reported
      as the parser's error. */
  method Solve(text: string, maxStates: int) returns (r: Result<Option<Solution>, L.ParseError>)
    ensures r.Failure? <==> L.Parse(text).Failure?
    ensures r.Failure? ==> r.error == L.Parse(text).error
    ensures r.Success? && r.value.Some? ==>
      var level := L.Parse(text).value;
      && Replays(level, level.initialBoxes, level.initialPlayer, r.value.value.pushes)
      && FinalBoxes(level.initialBoxes, r.value.value.pushes) <= level.goals
  {
    var parsed := L.Parse(text);
    if parsed.Failure? {
      return Failure(parsed.error);
    }
    var sol := SolveLevel(parsed.value, maxStates);
    return Success(sol);
  }
}
