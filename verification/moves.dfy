/** `Solution.to_moves`: a solution's pushes expanded into the flat list
    of one-letter moves used for animation, a lower-case letter per step
    of the player's walk and an upper-case letter per push. A decoder and
    a player that follows the moves are the partners the lemmas use. */
module Moves {
  import opened Grid
  import opened Wrappers
  import opened Pushes
  import L = Level
  import Astar

  /** The name of a direction in the solver: "U", "D", "L" or "R". */
  function Letter(d: Dir): char
  {
    match d
    case Up => 'U'
    case Down => 'D'
    case Left => 'L'
    case Right => 'R'
  }

  /** Python's `str.lower` on one ASCII letter. */
  function ToLower(c: char): char
  {
    if 'A' <= c <= 'Z' then (c as int - 'A' as int + 'a' as int) as char else c
  }

  function WalkName(d: Dir): string
  {
    [ToLower(Letter(d))]
  }

  function PushName(d: Dir): string
  {
    [Letter(d)]
  }

  /** The first direction of `ds` whose deltas are `(dr, dc)`. */
  function Match(ds: seq<Dir>, dr: int, dc: int): (r: Option<Dir>)
    ensures r.Some? ==> r.value in ds && RowDelta(r.value) == dr && ColDelta(r.value) == dc
    ensures r.None? <==> forall d | d in ds :: RowDelta(d) != dr || ColDelta(d) != dc
  {
    if ds == [] then None
    else if RowDelta(ds[0]) == dr && ColDelta(ds[0]) == dc then Some(ds[0])
    else Match(ds[1..], dr, dc)
  }

  /** The move for one step of a walk: nothing when the two cells are not
      one step apart. */
  function EdgeMove(p: Pos, q: Pos): seq<string>
  {
    match Match(Dirs, q.0 - p.0, q.1 - p.1)
    case None => []
    case Some(d) => [WalkName(d)]
  }

  /** The walk moves along `path`, one per consecutive pair of cells. */
  function WalkMoves(path: seq<Pos>): seq<string>
    decreases |path|
  {
    if |path| < 2 then [] else EdgeMove(path[0], path[1]) + WalkMoves(path[1..])
  }

  /** The moves of one push: the walk to the cell behind the box, then the
      push itself. */
  function ActionMoves(a: PushAction): seq<string>
  {
    WalkMoves(a.playerPath) + [PushName(a.dir)]
  }

  function AllMoves(pushes: seq<PushAction>): seq<string>
    decreases |pushes|
  {
    if pushes == [] then [] else ActionMoves(pushes[0]) + AllMoves(pushes[1..])
  }

  /** `Solution.to_moves`: one upper-case move per push, and, when every
      walk steps between adjacent cells, one lower-case move per step. */
  function ToMoves(sol: Astar.Solution): (ms: seq<string>)
    ensures PushCount(ms) == |sol.pushes|
    ensures (forall k | 0 <= k < |sol.pushes| :: Walked(sol.pushes[k])) ==>
      Walks(ms) == WalkLength(sol.pushes)
  {
    PushCountAny(sol.pushes);
    WalkedMovesCount(sol.pushes);
    AllMoves(sol.pushes)
  }

  lemma WalkedMovesCount(pushes: seq<PushAction>)
    ensures (forall k | 0 <= k < |pushes| :: Walked(pushes[k])) ==>
      Walks(AllMoves(pushes)) == WalkLength(pushes)
  {
    if forall k | 0 <= k < |pushes| :: Walked(pushes[k]) {
      MovesCount(pushes);
    }
  }

  /** A move read back: its direction and whether it pushes. */
  datatype Move = Move(dir: Dir, push: bool)

  function Decode(m: string): Option<Move>
  {
    if |m| != 1 then None
    else match m[0]
      case 'u' => Some(Move(Up, false))
      case 'd' => Some(Move(Down, false))
      case 'l' => Some(Move(Left, false))
      case 'r' => Some(Move(Right, false))
      case 'U' => Some(Move(Up, true))
      case 'D' => Some(Move(Down, true))
      case 'L' => Some(Move(Left, true))
      case 'R' => Some(Move(Right, true))
      case _ => None
  }

  function Name(mv: Move): string
  {
    if mv.push then PushName(mv.dir) else WalkName(mv.dir)
  }

  /** Decoding inverts naming, in both directions: every move name reads
      back as its move, and every string that reads back as a move is that
      move's name. */
  lemma DecodeName(mv: Move, m: string)
    ensures Decode(Name(mv)) == Some(mv)
    ensures Decode(m) == Some(mv) ==> m == Name(mv)
  {
    if Decode(m) == Some(mv) {
      assert m == [m[0]];
    }
  }

  /** Different directions have different deltas, so a step's deltas name
      its direction. */
  lemma MatchStep(d: Dir)
    ensures Match(Dirs, RowDelta(d), ColDelta(d)) == Some(d)
  {
  }

  /** Two adjacent cells are one step apart, and the move between them is
      that step. */
  lemma AdjacentMove(p: Pos, q: Pos)
    requires Adjacent(p, q)
    ensures exists d :: EdgeMove(p, q) == [WalkName(d)] && Step(p, d) == q
  {
    var dr, dc := q.0 - p.0, q.1 - p.1;
    var d := if dr == -1 then Up else if dr == 1 then Down else if dc == -1 then Left else Right;
    assert RowDelta(d) == dr && ColDelta(d) == dc;
    MatchStep(d);
    assert EdgeMove(p, q) == [WalkName(d)] && Step(p, d) == q;
  }

  /** Where the player ends up after the moves: every move steps the player
      in its direction, a push included (the player takes the box's
      cell); a string that is no move leaves the player where it is. */
  function Follow(p: Pos, ms: seq<string>): Pos
    decreases |ms|
  {
    if ms == [] then p
    else
      var q := match Decode(ms[0]) case None => p case Some(mv) => Step(p, mv.dir);
      Follow(q, ms[1..])
  }

  lemma {:induction false} FollowAppend(p: Pos, a: seq<string>, b: seq<string>)
    ensures Follow(p, a + b) == Follow(Follow(p, a), b)
    decreases |a|
  {
    if a != [] {
      assert (a + b)[0] == a[0] && (a + b)[1..] == a[1..] + b;
      var q := match Decode(a[0]) case None => p case Some(mv) => Step(p, mv.dir);
      FollowAppend(q, a[1..], b);
    } else {
      assert a + b == b;
    }
  }

  /** The number of walk moves and of push moves in a move list. */
  function Walks(ms: seq<string>): nat
    decreases |ms|
  {
    if ms == [] then 0
    else (if Decode(ms[0]).Some? && !Decode(ms[0]).value.push then 1 else 0) + Walks(ms[1..])
  }

  function PushCount(ms: seq<string>): nat
    decreases |ms|
  {
    if ms == [] then 0
    else (if Decode(ms[0]).Some? && Decode(ms[0]).value.push then 1 else 0) + PushCount(ms[1..])
  }

  lemma {:induction false} CountAppend(a: seq<string>, b: seq<string>)
    ensures Walks(a + b) == Walks(a) + Walks(b)
    ensures PushCount(a + b) == PushCount(a) + PushCount(b)
    decreases |a|
  {
    if a != [] {
      assert (a + b)[0] == a[0] && (a + b)[1..] == a[1..] + b;
      CountAppend(a[1..], b);
    } else {
      assert a + b == b;
    }
  }

  predicate Steps(path: seq<Pos>)
  {
    forall i | 1 <= i < |path| :: Adjacent(path[i - 1], path[i])
  }

  /** Along a path of adjacent cells there is one walk move per edge, no
      push move, and following the moves from the first cell ends on the
      last. */
  lemma {:induction false} WalkAlongPath(path: seq<Pos>)
    requires |path| >= 1 && Steps(path)
    ensures |WalkMoves(path)| == |path| - 1
    ensures Walks(WalkMoves(path)) == |path| - 1 && PushCount(WalkMoves(path)) == 0
    ensures Follow(path[0], WalkMoves(path)) == path[|path| - 1]
    decreases |path|
  {
    if |path| >= 2 {
      assert Adjacent(path[0], path[1]);
      AdjacentMove(path[0], path[1]);
      var d :| EdgeMove(path[0], path[1]) == [WalkName(d)] && Step(path[0], d) == path[1];
      var rest := path[1..];
      assert Steps(rest) by {
        forall i | 1 <= i < |rest|
          ensures Adjacent(rest[i - 1], rest[i])
        {
          assert rest[i - 1] == path[i] && rest[i] == path[i + 1];
        }
      }
      WalkAlongPath(rest);
      DecodeName(Move(d, false), WalkName(d));
      CountAppend([WalkName(d)], WalkMoves(rest));
      FollowAppend(path[0], [WalkName(d)], WalkMoves(rest));
      assert Follow(path[0], [WalkName(d)]) == path[1];
      assert rest[|rest| - 1] == path[|path| - 1];
    }
  }

  /** A push whose walk steps between adjacent cells and ends behind the
      box. */
  predicate Walked(a: PushAction)
  {
    |a.playerPath| >= 1 && Steps(a.playerPath)
    && Step(a.playerPath[|a.playerPath| - 1], a.dir) == a.boxFrom
  }

  /** One push's moves: the walk ends behind the box and the push leaves
      the player where the box was; one push move, one walk move per
      step of the walk. */
  lemma ActionFollow(a: PushAction)
    requires Walked(a)
    ensures Follow(a.playerPath[0], ActionMoves(a)) == a.boxFrom
    ensures Walks(ActionMoves(a)) == |a.playerPath| - 1 && PushCount(ActionMoves(a)) == 1
  {
    var path := a.playerPath;
    WalkAlongPath(path);
    DecodeName(Move(a.dir, true), PushName(a.dir));
    FollowAppend(path[0], WalkMoves(path), [PushName(a.dir)]);
    CountAppend(WalkMoves(path), [PushName(a.dir)]);
  }

  /** Every push of a playable list is walked. */
  lemma {:induction false} ReplaysWalked(level: L.Level, boxes: set<Pos>, player: Pos, pushes: seq<PushAction>)
    requires Replays(level, boxes, player, pushes)
    ensures forall k | 0 <= k < |pushes| :: Walked(pushes[k])
    decreases |pushes|
  {
    if pushes != [] {
      ReplaysUncons(level, boxes, player, pushes);
      LegalIsWalked(level, boxes, player, pushes[0]);
      ReplaysWalked(level, Moved(boxes, pushes[0]), pushes[0].boxFrom, pushes[1..]);
      WalkedCons(pushes);
    }
  }

  lemma WalkedCons(pushes: seq<PushAction>)
    requires pushes != [] && Walked(pushes[0])
    requires forall k | 0 <= k < |pushes| - 1 :: Walked(pushes[1..][k])
    ensures forall k | 0 <= k < |pushes| :: Walked(pushes[k])
  {
    forall k | 1 <= k < |pushes|
      ensures Walked(pushes[k])
    {
      assert pushes[k] == pushes[1..][k - 1];
    }
  }

  lemma LegalIsWalked(level: L.Level, boxes: set<Pos>, player: Pos, a: PushAction)
    requires LegalPush(level, boxes, player, a)
    ensures Walked(a)
  {
    assert IsWalk(level, boxes, a.playerPath);
    WalkSteps(level, boxes, a.playerPath);
    BackForth(a.boxFrom, a.dir);
  }

  lemma WalkSteps(level: L.Level, boxes: set<Pos>, path: seq<Pos>)
    requires IsWalk(level, boxes, path)
    ensures Steps(path)
  {
  }

  /** The walk steps over all the pushes. */
  function WalkLength(pushes: seq<PushAction>): nat
    decreases |pushes|
  {
    if pushes == [] then 0
    else (if |pushes[0].playerPath| >= 1 then |pushes[0].playerPath| - 1 else 0) + WalkLength(pushes[1..])
  }

  /** The moves of walked pushes: exactly one upper-case move per push and
      one lower-case move per step of the walks. */
  lemma {:induction false} MovesCount(pushes: seq<PushAction>)
    requires forall k | 0 <= k < |pushes| :: Walked(pushes[k])
    ensures PushCount(AllMoves(pushes)) == |pushes|
    ensures Walks(AllMoves(pushes)) == WalkLength(pushes)
    decreases |pushes|
  {
    if pushes != [] {
      assert Walked(pushes[0]);
      ActionFollow(pushes[0]);
      assert forall k | 0 <= k < |pushes[1..]| :: pushes[1..][k] == pushes[k + 1];
      MovesCount(pushes[1..]);
      CountAppend(ActionMoves(pushes[0]), AllMoves(pushes[1..]));
    }
  }

  /** A solution's moves: one upper-case move per push and one lower-case
      move per step of the walks. */
  lemma SolutionMoves(level: L.Level, sol: Astar.Solution)
    requires Replays(level, level.initialBoxes, level.initialPlayer, sol.pushes)
    ensures PushCount(ToMoves(sol)) == |sol.pushes|
    ensures Walks(ToMoves(sol)) == WalkLength(sol.pushes)
  {
    ReplaysWalked(level, level.initialBoxes, level.initialPlayer, sol.pushes);
    MovesCount(sol.pushes);
  }

  /** Every push contributes its upper-case move whatever its walk. */
  lemma {:induction false} PushCountAny(pushes: seq<PushAction>)
    ensures PushCount(AllMoves(pushes)) == |pushes|
    decreases |pushes|
  {
    if pushes != [] {
      WalkNoPush(pushes[0].playerPath);
      DecodeName(Move(pushes[0].dir, true), PushName(pushes[0].dir));
      CountAppend(WalkMoves(pushes[0].playerPath), [PushName(pushes[0].dir)]);
      PushCountAny(pushes[1..]);
      CountAppend(ActionMoves(pushes[0]), AllMoves(pushes[1..]));
    }
  }

  /** A walk never yields a push move, even between cells that are not
      adjacent. */
  lemma {:induction false} WalkNoPush(path: seq<Pos>)
    ensures PushCount(WalkMoves(path)) == 0
    decreases |path|
  {
    if |path| >= 2 {
      WalkNoPush(path[1..]);
      var e := EdgeMove(path[0], path[1]);
      if e != [] {
        var d := Match(Dirs, path[1].0 - path[0].0, path[1].1 - path[0].1).value;
        DecodeName(Move(d, false), WalkName(d));
      }
      CountAppend(e, WalkMoves(path[1..]));
    }
  }
}
