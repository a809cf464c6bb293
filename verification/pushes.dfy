/** Search states and pushes of the Sokoban solver: the player's walk
    region, player normalisation, the successor rule of the A* loop and
    what it means for a list of pushes to be playable from a position. */
module Pushes {
  import opened Grid
  import opened Wrappers
  import Flood
  import L = Level

  /** A search state: the normalised player cell and the box cells. */
  datatype State = State(player: Pos, boxes: set<Pos>)

  /** One push: the box moves from `boxFrom` to `boxTo` in direction `dir`
      after the player walks `playerPath` to the cell behind it. */
  datatype PushAction = PushAction(boxFrom: Pos, boxTo: Pos, dir: Dir, playerPath: seq<Pos>)

  /** The player walks on floor cells that are neither walls nor boxes. */
  function WalkRule(level: L.Level, boxes: set<Pos>): Flood.Rule
  {
    Flood.Walk(level.floors, level.walls + boxes)
  }

  predicate Walkable(level: L.Level, boxes: set<Pos>, p: Pos)
  {
    p in level.floors && p !in level.walls && p !in boxes
  }

  /** The cells the player can walk to from `player`. */
  function Region(level: L.Level, player: Pos, boxes: set<Pos>): set<Pos>
  {
    Flood.Run(WalkRule(level, boxes), player).visited
  }

  /** `_player_reachable`: the walk region and its BFS parent links. */
  function PlayerReachable(level: L.Level, player: Pos, boxes: set<Pos>): (r: (set<Pos>, map<Pos, Pos>))
    ensures r.0 == Region(level, player, boxes)
    ensures player in r.0
    ensures forall x | x in r.0 && x != player :: Walkable(level, boxes, x)
    ensures Flood.Closed(WalkRule(level, boxes), r.0)
  {
    var b := Flood.Run(WalkRule(level, boxes), player);
    (b.visited, b.parent)
  }

  /** Nothing outside the walk region is reachable: the region lies inside
      every step-closed set holding the start. */
  lemma RegionIsLeast(level: L.Level, player: Pos, boxes: set<Pos>, s: set<Pos>)
    requires player in s && Flood.Closed(WalkRule(level, boxes), s)
    ensures Region(level, player, boxes) <= s
  {
    Flood.RunLeast(WalkRule(level, boxes), player, s);
  }

  /** `_normalize_player`: the row-major least cell of the walk region. */
  function Normalize(level: L.Level, player: Pos, boxes: set<Pos>): (p: Pos)
    ensures IsMin(p, Region(level, player, boxes))
    ensures LessEq(p, player)
  {
    Flood.Run(WalkRule(level, boxes), player).least
  }

  /** Two starts in one walk region normalise to the same cell. */
  lemma NormalizeSameRegion(level: L.Level, boxes: set<Pos>, a: Pos, b: Pos)
    requires Walkable(level, boxes, a) && b in Region(level, a, boxes)
    ensures Normalize(level, b, boxes) == Normalize(level, a, boxes)
  {
    Flood.SameRegion(level.floors, level.walls + boxes, a, b);
    MinUnique(Normalize(level, b, boxes), Normalize(level, a, boxes), Region(level, a, boxes));
  }

  /** A walk: every step goes to a 4-adjacent walkable cell. */
  predicate IsWalk(level: L.Level, boxes: set<Pos>, path: seq<Pos>)
  {
    forall i | 1 <= i < |path| :: Adjacent(path[i - 1], path[i]) && Walkable(level, boxes, path[i])
  }

  /** `_reconstruct_path` on `_player_reachable`'s parent map: a walk from
      the player to any reachable cell, inside the region. */
  lemma ReachablePath(level: L.Level, player: Pos, boxes: set<Pos>, x: Pos)
    requires x in PlayerReachable(level, player, boxes).0
    ensures Flood.ReconstructPath(PlayerReachable(level, player, boxes).1, player, x).Some?
    ensures var path := Flood.ReconstructPath(PlayerReachable(level, player, boxes).1, player, x).value;
      && |path| >= 1 && path[0] == player && path[|path| - 1] == x
      && (forall i | 0 <= i < |path| :: path[i] in Region(level, player, boxes))
      && IsWalk(level, boxes, path)
  {
    var w := WalkRule(level, boxes);
    Flood.ReconstructFromRun(w, player, x);
    var path := Flood.ReconstructPath(Flood.Run(w, player).parent, player, x).value;
    FloodPathIsWalk(level, boxes, path);
  }

  lemma FloodPathIsWalk(level: L.Level, boxes: set<Pos>, path: seq<Pos>)
    requires forall i | 0 <= i < |path| - 1 :: Flood.Edge(WalkRule(level, boxes), path[i], path[i + 1])
    ensures IsWalk(level, boxes, path)
  {
    forall i | 1 <= i < |path|
      ensures Adjacent(path[i - 1], path[i]) && Walkable(level, boxes, path[i])
    {
      assert Flood.Edge(WalkRule(level, boxes), path[i - 1], path[i]);
      Flood.EdgeAdjacent(WalkRule(level, boxes), path[i - 1], path[i]);
    }
  }

  /** The boxes after a push. */
  function Moved(boxes: set<Pos>, a: PushAction): set<Pos>
  {
    boxes - {a.boxFrom} + {a.boxTo}
  }

  /** The successor rule of `solve_level` before its closed-set, freeze
      and score checks: the player must reach the cell behind `box`, and
      the cell in front must be no wall, no box and no dead cell. */
  function Push(level: L.Level, s: State, reach: set<Pos>, box: Pos, d: Dir): (r: Option<State>)
    requires box in s.boxes
    ensures r.Some? <==>
      && Step(box, Opposite(d)) in reach
      && Step(box, d) !in level.walls && Step(box, d) !in s.boxes && Step(box, d) !in level.deadCells
    ensures r.Some? ==> r.value.boxes - s.boxes == {Step(box, d)} && s.boxes - r.value.boxes == {box}
    ensures r.Some? ==> |r.value.boxes| == |s.boxes|
    ensures r.Some? ==> r.value.player == Normalize(level, box, r.value.boxes)
  {
    var pushPos := Step(box, Opposite(d));
    var target := Step(box, d);
    if pushPos !in reach then None
    else if target in level.walls || target in s.boxes then None
    else if target in level.deadCells then None
    else
      var newBoxes := s.boxes - {box} + {target};
      assert target != box by { StepMoves(box, d); }
      assert newBoxes - s.boxes == {target};
      assert s.boxes - newBoxes == {box};
      SwapSize(s.boxes, box, target);
      Some(State(Normalize(level, box, newBoxes), newBoxes))
  }

  /** The boxes after an accepted push. */
  lemma PushMoves(level: L.Level, s: State, reach: set<Pos>, box: Pos, d: Dir)
    requires box in s.boxes && Push(level, s, reach, box, d).Some?
    ensures Push(level, s, reach, box, d).value.boxes == s.boxes - {box} + {Step(box, d)}
  {
  }

  lemma StepMoves(p: Pos, d: Dir)
    ensures Step(p, d) != p
  {
  }

  lemma SwapSize(boxes: set<Pos>, x: Pos, y: Pos)
    requires x in boxes && y !in boxes
    ensures |boxes - {x} + {y}| == |boxes|
  {
    assert |boxes - {x}| == |boxes| - 1;
  }

  /** A push the player, standing at `player`, can make on `boxes`: the
      walk starts at the normalised cell of the player's region and ends
      behind the box, and the box moves one step onto a cell that is no
      wall, no box and no dead cell. */
  ghost predicate LegalPush(level: L.Level, boxes: set<Pos>, player: Pos, a: PushAction)
  {
    && a.boxFrom in boxes
    && a.boxTo == Step(a.boxFrom, a.dir)
    && a.boxTo !in level.walls && a.boxTo !in boxes && a.boxTo !in level.deadCells
    && |a.playerPath| >= 1
    && a.playerPath[0] == Normalize(level, player, boxes)
    && a.playerPath[|a.playerPath| - 1] == Step(a.boxFrom, Opposite(a.dir))
    && IsWalk(level, boxes, a.playerPath)
  }

  /** The pushes can be played one after another from `boxes` with the
      player at `player`; after a push the player stands where the box
      was. */
  ghost predicate Replays(level: L.Level, boxes: set<Pos>, player: Pos, pushes: seq<PushAction>)
    decreases |pushes|
  {
    pushes == [] ||
      (LegalPush(level, boxes, player, pushes[0])
       && Replays(level, Moved(boxes, pushes[0]), pushes[0].boxFrom, pushes[1..]))
  }

  /** The first push of a playable list is legal and the rest play on. */
  lemma ReplaysUncons(level: L.Level, boxes: set<Pos>, player: Pos, pushes: seq<PushAction>)
    requires Replays(level, boxes, player, pushes) && pushes != []
    ensures LegalPush(level, boxes, player, pushes[0])
    ensures Replays(level, Moved(boxes, pushes[0]), pushes[0].boxFrom, pushes[1..])
  {
  }

  /** The boxes after all the pushes. */
  function FinalBoxes(boxes: set<Pos>, pushes: seq<PushAction>): set<Pos>
    decreases |pushes|
  {
    if pushes == [] then boxes else FinalBoxes(Moved(boxes, pushes[0]), pushes[1..])
  }

  /** A playable push list never changes the number of boxes. */
  lemma {:induction false} ReplayKeepsCount(level: L.Level, boxes: set<Pos>, player: Pos, pushes: seq<PushAction>)
    requires Replays(level, boxes, player, pushes)
    ensures |FinalBoxes(boxes, pushes)| == |boxes|
    decreases |pushes|
  {
    if pushes != [] {
      SwapSize(boxes, pushes[0].boxFrom, pushes[0].boxTo);
      ReplayKeepsCount(level, Moved(boxes, pushes[0]), pushes[0].boxFrom, pushes[1..]);
    }
  }

  /** Playing one more push in front of a playable list. */
  lemma ReplayCons(level: L.Level, boxes: set<Pos>, player: Pos, a: PushAction, pushes: seq<PushAction>)
    requires LegalPush(level, boxes, player, a) && Replays(level, Moved(boxes, a), a.boxFrom, pushes)
    ensures Replays(level, boxes, player, [a] + pushes)
    ensures FinalBoxes(boxes, [a] + pushes) == FinalBoxes(Moved(boxes, a), pushes)
  {
    var q := [a] + pushes;
    assert q[0] == a && q[1..] == pushes;
    FinalCons(boxes, a, pushes);
  }

  lemma FinalCons(boxes: set<Pos>, a: PushAction, pushes: seq<PushAction>)
    ensures FinalBoxes(boxes, [a] + pushes) == FinalBoxes(Moved(boxes, a), pushes)
  {
    assert ([a] + pushes)[1..] == pushes;
  }
}
