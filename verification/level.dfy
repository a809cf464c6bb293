/** The static level: parsing the level text into walls, floors, goals,
    boxes and the player, and the simple-deadlock ("dead cell") table
    computed once per level by a reverse-push flood from every goal. */
module Level {
  import opened Grid
  import opened Wrappers
  import Flood

  /** The level text's lines: trailing newlines are stripped, then the
      text is split at every newline (so the empty text is one empty
      line). */
  function StripNewlines(t: string): (s: string)
    ensures |s| <= |t| && s == t[..|s|]
    ensures s == [] || s[|s| - 1] != '\n'
    ensures forall i | |s| <= i < |t| :: t[i] == '\n'
  {
    if t != [] && t[|t| - 1] == '\n' then StripNewlines(t[..|t| - 1]) else t
  }

  function Split(t: string): (lines: seq<string>)
    ensures |lines| >= 1
    ensures forall i | 0 <= i < |lines| :: '\n' !in lines[i]
  {
    if t == [] then [""]
    else
      var rest := Split(t[1..]);
      if t[0] == '\n' then [""] + rest
      else [[t[0]] + rest[0]] + rest[1..]
  }

  /** The inverse of Split. */
  function Join(lines: seq<string>): string
    requires |lines| >= 1
  {
    if |lines| == 1 then lines[0] else lines[0] + "\n" + Join(lines[1..])
  }

  /** Splitting loses nothing: joining the lines gives the text back. */
  lemma {:induction false} JoinSplit(t: string)
    ensures Join(Split(t)) == t
  {
    if t != [] {
      var rest := Split(t[1..]);
      JoinSplit(t[1..]);
      if t[0] != '\n' {
        if |rest| == 1 {
          assert Join(Split(t)) == [t[0]] + rest[0];
        } else {
          assert Split(t)[1..] == rest[1..];
          assert Join(Split(t)) == [t[0]] + rest[0] + "\n" + Join(rest[1..]);
        }
        assert t == [t[0]] + t[1..];
      }
    }
  }

  function Lines(text: string): (lines: seq<string>)
    ensures |lines| >= 1
  {
    Split(StripNewlines(text))
  }

  predicate InGrid(lines: seq<string>, p: Pos)
  {
    0 <= p.0 < |lines| && 0 <= p.1 < |lines[p.0]|
  }

  /** The character at a cell of the text. */
  function At(lines: seq<string>, p: Pos): char
    requires InGrid(lines, p)
  {
    lines[p.0][p.1]
  }

  /** `_is_interior`: a space counts as floor only when a wall lies
      somewhere to its left and right on its row and somewhere above and
      below it in its column (rows too short to reach the column do not
      count). */
  predicate IsInterior(r: int, c: int, lines: seq<string>)
    requires 0 <= r < |lines|
  {
    var line := lines[r];
    && (exists cc | 0 <= cc < c && cc < |line| :: line[cc] == '#')
    && (exists cc | c + 1 <= cc < |line| :: line[cc] == '#')
    && (exists r2 | 0 <= r2 < r :: 0 <= c < |lines[r2]| && lines[r2][c] == '#')
    && (exists r2 | r + 1 <= r2 < |lines| :: 0 <= c < |lines[r2]| && lines[r2][c] == '#')
  }

  /** The padding around a level is never floor: a space is floor only
      strictly inside the first and last line and strictly inside its own
      line. */
  lemma InteriorSpaces(lines: seq<string>)
    ensures forall p | p in FloorsOf(lines) && At(lines, p) == ' ' ::
      0 < p.0 < |lines| - 1 && 0 < p.1 < |lines[p.0]| - 1
  {
  }

  function CellsOf(lines: seq<string>, chars: set<char>): (s: set<Pos>)
    ensures forall p :: p in s <==> InGrid(lines, p) && At(lines, p) in chars
  {
    set r, c | 0 <= r < |lines| && 0 <= c < |lines[r]| && lines[r][c] in chars :: (r, c)
  }

  /** Every cell that is not a wall, except spaces outside the walls. */
  function FloorsOf(lines: seq<string>): (s: set<Pos>)
    ensures forall p :: p in s <==>
      InGrid(lines, p) && At(lines, p) != '#' && (At(lines, p) != ' ' || IsInterior(p.0, p.1, lines))
  {
    set r, c | 0 <= r < |lines| && 0 <= c < |lines[r]| && lines[r][c] != '#'
                 && (lines[r][c] != ' ' || IsInterior(r, c, lines)) :: (r, c)
  }

  predicate IsPlayerChar(ch: char)
  {
    ch == '@' || ch == '+'
  }

  /** Row-major order on cells, as the parser visits them. */
  predicate ScannedBefore(p: Pos, r: int, c: int)
  {
    p.0 < r || (p.0 == r && p.1 < c)
  }

  /** The parser's player scan from cell (r, c) on: every `@` or `+`
      overwrites the player seen before, so the last one in row-major
      order wins. */
  function ScanPlayer(lines: seq<string>, r: nat, c: nat, seen: Option<Pos>): (res: Option<Pos>)
    requires r <= |lines| && (r < |lines| ==> c <= |lines[r]|)
    requires seen.Some? ==> InGrid(lines, seen.value) && IsPlayerChar(At(lines, seen.value))
    requires seen.Some? ==> ScannedBefore(seen.value, r, c)
    ensures res.Some? ==> InGrid(lines, res.value) && IsPlayerChar(At(lines, res.value))
    ensures res.Some? ==> res == seen || !ScannedBefore(res.value, r, c)
    ensures res.Some? ==> forall q | InGrid(lines, q) && !ScannedBefore(q, r, c) && IsPlayerChar(At(lines, q)) ::
      !Less(res.value, q)
    ensures res.None? <==> seen.None? && forall q | InGrid(lines, q) && !ScannedBefore(q, r, c) ::
      !IsPlayerChar(At(lines, q))
    decreases |lines| - r, if r < |lines| then |lines[r]| - c else 0
  {
    if r == |lines| then seen
    else if c == |lines[r]| then ScanPlayer(lines, r + 1, 0, seen)
    else if IsPlayerChar(lines[r][c]) then ScanPlayer(lines, r, c + 1, Some((r, c)))
    else ScanPlayer(lines, r, c + 1, seen)
  }

  /** The static data of a level. */
  datatype Level = Level(
    walls: set<Pos>,
    goals: set<Pos>,
    floors: set<Pos>,
    deadCells: set<Pos>,
    width: nat,
    height: nat,
    initialPlayer: Pos,
    initialBoxes: set<Pos>)

  /** The three ways `parse_level` rejects a text. */
  datatype ParseError =
    | NoPlayer
    | NoBoxes
    | CountMismatch(boxes: nat, goals: nat)

  /** The cells the level text draws as `chars`. */
  const WallChars: set<char> := {'#'}
  const GoalChars: set<char> := {'.', '*', '+'}
  const BoxChars: set<char> := {'$', '*'}

  ghost predicate HasPlayer(lines: seq<string>)
  {
    exists q | InGrid(lines, q) :: IsPlayerChar(At(lines, q))
  }

  /** Walls are never floor; goals, boxes and players always are. */
  lemma CellKinds(lines: seq<string>)
    ensures CellsOf(lines, WallChars) !! FloorsOf(lines)
    ensures CellsOf(lines, GoalChars) <= FloorsOf(lines)
    ensures CellsOf(lines, BoxChars) <= FloorsOf(lines)
    ensures forall p | InGrid(lines, p) && IsPlayerChar(At(lines, p)) :: p in FloorsOf(lines)
  {
    var floors := FloorsOf(lines);
    forall p | p in CellsOf(lines, GoalChars) ensures p in floors {
      assert InGrid(lines, p) && At(lines, p) in GoalChars;
    }
    forall p | p in CellsOf(lines, BoxChars) ensures p in floors {
      assert InGrid(lines, p) && At(lines, p) in BoxChars;
    }
    forall p | p in CellsOf(lines, WallChars) ensures p !in floors {
      assert InGrid(lines, p) && At(lines, p) in WallChars;
    }
  }

  /** `parse_level`: the level a text describes, or why it is rejected.
      The errors are checked in the order `parse_level` checks them: no
      player, then no boxes, then differing box and goal counts, which the
      error reports. A level passing all three checks is accepted. */
  function Parse(text: string): (r: Result<Level, ParseError>)
    ensures r == Failure(NoPlayer) <==> !HasPlayer(Lines(text))
    ensures r == Failure(NoBoxes) <==> HasPlayer(Lines(text)) && CellsOf(Lines(text), BoxChars) == {}
    ensures r.Failure? && r.error.CountMismatch? ==> r.error.boxes != r.error.goals && r.error.boxes > 0
    ensures r.Failure? && r.error.CountMismatch? ==>
      r.error == CountMismatch(|CellsOf(Lines(text), BoxChars)|, |CellsOf(Lines(text), GoalChars)|)
    ensures r.Success? <==>
      && HasPlayer(Lines(text)) && CellsOf(Lines(text), BoxChars) != {}
      && |CellsOf(Lines(text), BoxChars)| == |CellsOf(Lines(text), GoalChars)|
    ensures r.Success? ==>
      var l := r.value;
      && l.walls !! l.floors
      && l.goals <= l.floors && l.initialBoxes <= l.floors && l.initialPlayer in l.floors
      && |l.initialBoxes| == |l.goals| > 0
      && l.deadCells <= l.floors && l.deadCells !! l.goals
      && l.height == |Lines(text)| >= 1
  {
    CellKinds(Lines(text));
    Build(Lines(text))
  }

  /** The checks and fields of `parse_level`, on the lines of the text. */
  function Build(lines: seq<string>): Result<Level, ParseError>
  {
    var walls := CellsOf(lines, WallChars);
    var goals := CellsOf(lines, GoalChars);
    var boxes := CellsOf(lines, BoxChars);
    var floors := FloorsOf(lines);
    var player := ScanPlayer(lines, 0, 0, None);
    if player.None? then
      Failure(NoPlayer)
    else if |boxes| == 0 then
      Failure(NoBoxes)
    else if |boxes| != |goals| then
      Failure(CountMismatch(|boxes|, |goals|))
    else
      Success(Level(walls, goals, floors, DeadCells(walls, floors, goals),
                    MaxLen(lines), |lines|, player.value, boxes))
  }

  /** The fields of a successful parse, read off the text. */
  lemma ParseFields(text: string)
    requires Parse(text).Success?
    ensures var lines := Lines(text);
      && ScanPlayer(lines, 0, 0, None).Some?
      && Parse(text).value == Level(
           CellsOf(lines, WallChars), CellsOf(lines, GoalChars), FloorsOf(lines),
           DeadCells(CellsOf(lines, WallChars), FloorsOf(lines), CellsOf(lines, GoalChars)),
           MaxLen(lines), |lines|, ScanPlayer(lines, 0, 0, None).value, CellsOf(lines, BoxChars))
  {
    assert Parse(text) == Build(Lines(text));
  }

  /** Each cell of a parsed level is what the text draws there, and no
      line is wider than the level. */
  lemma ParseCells(text: string)
    requires Parse(text).Success?
    ensures var l := Parse(text).value; var lines := Lines(text);
      && (forall p :: p in l.walls <==> InGrid(lines, p) && At(lines, p) == '#')
      && (forall p :: p in l.goals <==> InGrid(lines, p) && At(lines, p) in GoalChars)
      && (forall p :: p in l.initialBoxes <==> InGrid(lines, p) && At(lines, p) in BoxChars)
      && (forall i | 0 <= i < |lines| :: |lines[i]| <= l.width)
  {
    ParseFields(text);
  }

  /** The player stands on the last `@` or `+` in row-major order. */
  lemma ParsePlayer(text: string)
    requires Parse(text).Success?
    ensures var l := Parse(text).value; var lines := Lines(text);
      && InGrid(lines, l.initialPlayer) && IsPlayerChar(At(lines, l.initialPlayer))
      && (forall q | InGrid(lines, q) && IsPlayerChar(At(lines, q)) :: !Less(l.initialPlayer, q))
  {
    ParseFields(text);
  }

  /** The widest line. */
  function MaxLen(lines: seq<string>): (w: nat)
    requires |lines| >= 1
    ensures forall i | 0 <= i < |lines| :: |lines[i]| <= w
    ensures exists i | 0 <= i < |lines| :: |lines[i]| == w
  {
    if |lines| == 1 then |lines[0]|
    else
      var rest := MaxLen(lines[1..]);
      assert forall i | 1 <= i < |lines| :: lines[i] == lines[1..][i - 1];
      if |lines[0]| >= rest then |lines[0]| else rest
  }

  /** The reverse-push flood from one goal. */
  function PullRegion(walls: set<Pos>, floors: set<Pos>, g: Pos): set<Pos>
  {
    Flood.Run(Flood.Pull(floors, walls), g).visited
  }

  /** The union of `f(g)` over the cells `g` of `gs`. */
  function UnionOver(f: Pos -> set<Pos>, gs: seq<Pos>): (u: set<Pos>)
    ensures forall x :: x in u <==> exists i | 0 <= i < |gs| :: x in f(gs[i])
  {
    if gs == [] then {}
    else
      var rest := UnionOver(f, gs[1..]);
      assert forall i | 1 <= i < |gs| :: gs[i] == gs[1..][i - 1];
      f(gs[0]) + rest
  }

  /** Over a listing of a set, the union is the union over the set. */
  lemma UnionOverSet(f: Pos -> set<Pos>, goals: set<Pos>, gs: seq<Pos>)
    requires forall g | g in goals :: g in gs
    requires forall i | 0 <= i < |gs| :: gs[i] in goals
    ensures forall x :: x in UnionOver(f, gs) <==> exists g | g in goals :: x in f(g)
  {
    forall x | exists g | g in goals :: x in f(g)
      ensures x in UnionOver(f, gs)
    {
      var g :| g in goals && x in f(g);
      var i :| 0 <= i < |gs| && gs[i] == g;
    }
  }

  /** `_compute_dead_cells`: the floor cells that are not goals and that
      no goal's reverse-push flood reaches. */
  function DeadCells(walls: set<Pos>, floors: set<Pos>, goals: set<Pos>): (dead: set<Pos>)
    ensures dead <= floors && dead !! goals
    ensures forall x | x in floors && x !in goals ::
      x in dead <==> forall g | g in goals :: x !in PullRegion(walls, floors, g)
  {
    var gs := Enumerate(goals);
    var f := g => PullRegion(walls, floors, g);
    EnumerateIndex(goals);
    UnionOverSet(f, goals, gs);
    floors - UnionOver(f, gs) - goals
  }

  /** One forward push of a lone box: from `x` one step in some direction,
      onto a floor cell, with the player on the floor cell behind `x`. */
  predicate PushStep(walls: set<Pos>, floors: set<Pos>, x: Pos, y: Pos)
  {
    && x in floors && x !in walls
    && (exists d: Dir :: y == Step(x, d)
         && y in floors && y !in walls
         && Step(x, Opposite(d)) in floors && Step(x, Opposite(d)) !in walls)
  }

  /** A cell some goal's reverse-push flood reaches is not dead. */
  lemma ReachedNotDead(walls: set<Pos>, floors: set<Pos>, goals: set<Pos>, g: Pos, x: Pos)
    requires g in goals && x in PullRegion(walls, floors, g)
    ensures x !in DeadCells(walls, floors, goals)
  {
  }

  /** A goal lies in its own reverse-push flood, which is closed. */
  lemma PullRegionClosed(walls: set<Pos>, floors: set<Pos>, g: Pos)
    ensures g in PullRegion(walls, floors, g)
    ensures Flood.Closed(Flood.Pull(floors, walls), PullRegion(walls, floors, g))
  {
  }

  /** A set closed under reverse pushes holds the start of every lone-box
      push that ends inside it. */
  lemma PushStepBack(walls: set<Pos>, floors: set<Pos>, s: set<Pos>, x: Pos, y: Pos)
    requires Flood.Closed(Flood.Pull(floors, walls), s)
    requires y in s && PushStep(walls, floors, x, y)
    ensures x in s
  {
    var rule := Flood.Pull(floors, walls);
    var d: Dir :| y == Step(x, d)
      && y in floors && y !in walls
      && Step(x, Opposite(d)) in floors && Step(x, Opposite(d)) !in walls;
    var e := Opposite(d);
    assert Step(y, e) == x;
    assert Step(Step(y, e), e) == Step(x, Opposite(d));
    assert Flood.Allowed(rule, y, e);
    assert Flood.Expanded(rule, y, s);
  }

  /** A set closed under reverse pushes holds the start of every chain of
      lone-box pushes that ends inside it. */
  lemma {:induction false} PushChainBack(walls: set<Pos>, floors: set<Pos>, s: set<Pos>, path: seq<Pos>)
    requires Flood.Closed(Flood.Pull(floors, walls), s)
    requires |path| >= 1 && path[|path| - 1] in s
    requires forall i | 0 <= i < |path| - 1 :: PushStep(walls, floors, path[i], path[i + 1])
    ensures path[0] in s
  {
    var i := |path| - 1;
    while i > 0
      invariant 0 <= i <= |path| - 1
      invariant path[i] in s
    {
      PushStepBack(walls, floors, s, path[i - 1], path[i]);
      i := i - 1;
    }
  }

  /** A box alone on a dead cell can never be pushed onto a goal: every
      chain of lone-box pushes ending on a goal starts outside the dead
      cells. */
  lemma DeadCellIsHopeless(walls: set<Pos>, floors: set<Pos>, goals: set<Pos>, path: seq<Pos>)
    requires |path| >= 1 && path[|path| - 1] in goals
    requires forall i | 0 <= i < |path| - 1 :: PushStep(walls, floors, path[i], path[i + 1])
    ensures path[0] !in DeadCells(walls, floors, goals)
  {
    var g := path[|path| - 1];
    PullRegionClosed(walls, floors, g);
    PushChainBack(walls, floors, PullRegion(walls, floors, g), path);
    ReachedNotDead(walls, floors, goals, g, path[0]);
  }

  /** Conversely, a live floor cell is a goal or is reached from a goal by
      reverse pushes whose box and player cells are all floor. */
  lemma LiveCellIsReached(walls: set<Pos>, floors: set<Pos>, goals: set<Pos>, x: Pos)
      returns (g: Pos, path: seq<Pos>)
    requires x in floors && x !in DeadCells(walls, floors, goals)
    ensures g in goals
    ensures Flood.IsFloodPath(Flood.Pull(floors, walls), PullRegion(walls, floors, g), g, x, path)
  {
    if x in goals {
      g := x;
    } else {
      g :| g in goals && x in PullRegion(walls, floors, g);
    }
    Flood.ReconstructFromRun(Flood.Pull(floors, walls), g, x);
    path := Flood.ReconstructPath(Flood.Run(Flood.Pull(floors, walls), g).parent, g, x).value;
  }
}
