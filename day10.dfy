/**
 * Day 10 (Pipe Maze): pipe tiles and the sides they connect, the walk along the loop that passes
 * through the start tile, the copy of the grid that keeps only that loop, and the ray-parity test
 * that decides whether a tile is enclosed by it.
 */
module Day10 {
  import opened Common

  /** The tile kinds, with the sides each one connects. */
  datatype Pipe = Vertical | Horizontal | NorthToEast | NorthToWest | SouthToEast | SouthToWest
                | Start | Ground | AnyPipe | Inside | Outside
  {
    /** The character a tile is written as. */
    function Symbol(): char
    {
      match this
      case Vertical => '|'
      case Horizontal => '-'
      case NorthToEast => 'L'
      case NorthToWest => 'J'
      case SouthToEast => 'F'
      case SouthToWest => '7'
      case Start => 'S'
      case Ground => '.'
      case AnyPipe => 'P'
      case Inside => 'I'
      case Outside => 'O'
    }

    predicate ConnectRight() { Horizontal? || NorthToEast? || SouthToEast? || Start? }

    predicate ConnectDown() { Vertical? || SouthToEast? || SouthToWest? || Start? }

    predicate ConnectLeft() { Horizontal? || NorthToWest? || SouthToWest? || Start? }

    predicate ConnectUp() { Vertical? || NorthToEast? || NorthToWest? || Start? }
  }

  /** `verticalConnectionsCount`: how many of up and down a tile connects. */
  function VerticalConnections(p: Pipe): (c: nat)
    ensures c <= 2
    ensures c == 2 <==> p == Vertical || p == Start
    ensures c == 0 <==> !p.ConnectUp() && !p.ConnectDown()
    ensures c == 1 <==> p.ConnectUp() != p.ConnectDown()
  {
    (if p.ConnectDown() then 1 else 0) + (if p.ConnectUp() then 1 else 0)
  }

  /** `toPipe`: the tile written as `c`; a character no tile uses is an error. */
  function ToPipe(c: char): (r: Option<Pipe>)
    ensures r.Some? ==> r.value.Symbol() == c
    ensures r.None? <==> forall p: Pipe :: p.Symbol() != c
  {
    match c
    case '|' => Some(Vertical)
    case '-' => Some(Horizontal)
    case 'L' => Some(NorthToEast)
    case 'J' => Some(NorthToWest)
    case 'F' => Some(SouthToEast)
    case '7' => Some(SouthToWest)
    case 'S' => Some(Start)
    case '.' => Some(Ground)
    case 'P' => Some(AnyPipe)
    case 'I' => Some(Inside)
    case 'O' => Some(Outside)
    case _ => None
  }

  /** Every tile reads back from its own symbol. */
  lemma ToPipeSymbol(p: Pipe)
    ensures ToPipe(p.Symbol()) == Some(p)
  {
  }

  /** One input line read as tiles. */
  function ParseRow(line: string): (r: Option<seq<Pipe>>)
    ensures r.Some? ==> |r.value| == |line| && forall i | 0 <= i < |line| :: r.value[i].Symbol() == line[i]
    ensures r.None? <==> exists i | 0 <= i < |line| :: ToPipe(line[i]).None?
  {
    if line == [] then Some([])
    else
      var init := ParseRow(line[..|line| - 1]);
      var last := ToPipe(line[|line| - 1]);
      assert forall i | 0 <= i < |line| - 1 :: line[..|line| - 1][i] == line[i];
      if init.Some? && last.Some? then Some(init.value + [last.value]) else None
  }

  type Area = seq<seq<Pipe>>

  /** The input read as an area: fails when some character is not a tile. */
  function ParseArea(lines: seq<string>): (r: Option<Area>)
    ensures r.Some? ==> |r.value| == |lines| && forall y | 0 <= y < |lines| :: ParseRow(lines[y]) == Some(r.value[y])
    ensures r.None? <==> exists y | 0 <= y < |lines| :: ParseRow(lines[y]).None?
  {
    if lines == [] then Some([])
    else
      var init := ParseArea(lines[..|lines| - 1]);
      var last := ParseRow(lines[|lines| - 1]);
      assert forall y | 0 <= y < |lines| - 1 :: lines[..|lines| - 1][y] == lines[y];
      if init.Some? && last.Some? then Some(init.value + [last.value]) else None
  }

  datatype Point = Point(x: int, y: int)

  predicate InBounds(area: Area, p: Point)
  {
    0 <= p.y < |area| && 0 <= p.x < |area[p.y]|
  }

  function At(area: Area, p: Point): Pipe
    requires InBounds(area, p)
  {
    area[p.y][p.x]
  }

  /** `width`: the length of the first row (no tile row at all gives 0 here). */
  function Width(area: Area): nat
  {
    if area == [] then 0 else |area[0]|
  }

  /** `indexOf(START)` on one row. */
  function IndexOfStart(row: seq<Pipe>): (i: int)
    ensures -1 <= i < |row|
    ensures i >= 0 ==> row[i] == Start && forall j | 0 <= j < i :: row[j] != Start
    ensures i == -1 ==> forall j | 0 <= j < |row| :: row[j] != Start
  {
    if row == [] then -1
    else if row[0] == Start then 0
    else
      var k := IndexOfStart(row[1..]);
      assert forall j | 1 <= j < |row| :: row[1..][j - 1] == row[j];
      if k == -1 then -1 else k + 1
  }

  /** No `Start` tile in rows `from..` before `p` in reading order. */
  ghost predicate NoStartBefore(area: Area, from: nat, p: Point)
  {
    forall y, x | from <= y < |area| && 0 <= x < |area[y]| && (y < p.y || (y == p.y && x < p.x)) :: area[y][x] != Start
  }

  /** The first `Start` tile of rows `from..` in reading order. */
  function StartPosFrom(area: Area, from: nat): (r: Option<Point>)
    requires from <= |area|
    ensures r.Some? ==> InBounds(area, r.value) && At(area, r.value) == Start && NoStartBefore(area, from, r.value)
    ensures r.None? ==> forall y, x | from <= y < |area| && 0 <= x < |area[y]| :: area[y][x] != Start
    decreases |area| - from
  {
    if from == |area| then None
    else
      var col := IndexOfStart(area[from]);
      if col != -1 then Some(Point(col, from)) else StartPosFrom(area, from + 1)
  }

  /** `startPos`: the first `S` in reading order; an area without one is an error. */
  function StartPos(area: Area): (r: Option<Point>)
    ensures r.Some? ==> InBounds(area, r.value) && At(area, r.value) == Start && NoStartBefore(area, 0, r.value)
    ensures r.None? <==> forall y, x | 0 <= y < |area| && 0 <= x < |area[y]| :: area[y][x] != Start
  {
    StartPosFrom(area, 0)
  }

  /** Orthogonal neighbours. */
  predicate Adjacent(p: Point, q: Point)
  {
    q == Point(p.x + 1, p.y) || q == Point(p.x, p.y + 1) || q == Point(p.x - 1, p.y) || q == Point(p.x, p.y - 1)
  }

  /** `p` and `q` are side by side and each connects toward the other. */
  predicate Joined(area: Area, p: Point, q: Point)
    requires InBounds(area, p) && InBounds(area, q)
  {
    var a, b := At(area, p), At(area, q);
    || (q == Point(p.x + 1, p.y) && a.ConnectRight() && b.ConnectLeft())
    || (q == Point(p.x, p.y + 1) && a.ConnectDown() && b.ConnectUp())
    || (q == Point(p.x - 1, p.y) && a.ConnectLeft() && b.ConnectRight())
    || (q == Point(p.x, p.y - 1) && a.ConnectUp() && b.ConnectDown())
  }

  /**
   * `getConnectedPointsFrom` with its bounds guards corrected: the tiles to the right, below, to
   * the left and above (in that order) that `p` connects toward and that connect back.
   */
  function Neighbours(area: Area, p: Point): (r: seq<Point>)
    requires InBounds(area, p)
    ensures forall q | q in r :: InBounds(area, q)
  {
    var c, x, y := At(area, p), p.x, p.y;
    (if c.ConnectRight() && x + 1 < |area[y]| && area[y][x + 1].ConnectLeft() then [Point(x + 1, y)] else [])
    + (if c.ConnectDown() && y + 1 < |area| && x < |area[y + 1]| && area[y + 1][x].ConnectUp() then [Point(x, y + 1)] else [])
    + (if c.ConnectLeft() && x > 0 && area[y][x - 1].ConnectRight() then [Point(x - 1, y)] else [])
    + (if c.ConnectUp() && y > 0 && x < |area[y - 1]| && area[y - 1][x].ConnectDown() then [Point(x, y - 1)] else [])
  }

  /** At most four orthogonal neighbours, none of them ground, none twice. */
  lemma NeighboursAround(area: Area, p: Point)
    requires InBounds(area, p)
    ensures var r := Neighbours(area, p);
            && |r| <= 4 && NoDuplicates(r)
            && forall q | q in r :: Adjacent(p, q) && At(area, q) != Ground
  {
  }

  /** The neighbours are exactly the tiles joined to `p`. */
  lemma NeighboursExact(area: Area, p: Point, q: Point)
    requires InBounds(area, p)
    ensures q in Neighbours(area, p) <==> InBounds(area, q) && Joined(area, p, q)
  {
  }

  /** Connection is mutual: a neighbour of `p` has `p` among its own neighbours. */
  lemma NeighboursSymmetric(area: Area, p: Point, q: Point)
    requires InBounds(area, p) && q in Neighbours(area, p)
    ensures InBounds(area, q) && p in Neighbours(area, q)
  {
    NeighboursExact(area, p, q);
    NeighboursExact(area, q, p);
  }

  /** The tiles a side of the grid faces. */
  datatype Side = Right | Down | Left | Up

  predicate Connects(p: Pipe, side: Side)
  {
    match side
    case Right => p.ConnectRight()
    case Down => p.ConnectDown()
    case Left => p.ConnectLeft()
    case Up => p.ConnectUp()
  }

  /** Reading the tile at `q` to see whether it connects on `side`: an index error outside the rows. */
  function Probe(area: Area, q: Point, side: Side): Option<seq<Point>>
  {
    if InBounds(area, q) then Some(if Connects(At(area, q), side) then [q] else []) else None
  }

  /**
   * `getConnectedPointsFrom` as written: the right and down guards compare `x` with the width and
   * `y` with the height instead of `x + 1` and `y + 1`, so the neighbour read can fall off the grid
   * (`None`).
   */
  function NeighboursAsWritten(area: Area, p: Point): (r: Option<seq<Point>>)
    requires InBounds(area, p)
  {
    var c, x, y := At(area, p), p.x, p.y;
    var right := if c.ConnectRight() && x < Width(area) then Probe(area, Point(x + 1, y), Left) else Some([]);
    var down := if c.ConnectDown() && y < |area| then Probe(area, Point(x, y + 1), Up) else Some([]);
    var left := if c.ConnectLeft() && x > 0 then Probe(area, Point(x - 1, y), Right) else Some([]);
    var up := if c.ConnectUp() && y > 0 then Probe(area, Point(x, y - 1), Down) else Some([]);
    if right.Some? && down.Some? && left.Some? && up.Some? then Some(right.value + down.value + left.value + up.value)
    else None
  }

  /** Every row is as long as the first. */
  predicate Rectangular(area: Area)
  {
    forall y | 0 <= y < |area| :: |area[y]| == Width(area)
  }

  /** On a rectangular area, whenever the rule as written does not fall off the grid it agrees with the corrected one. */
  lemma NeighboursAsWrittenAgrees(area: Area, p: Point)
    requires InBounds(area, p) && Rectangular(area)
    ensures NeighboursAsWritten(area, p).Some? ==> NeighboursAsWritten(area, p).value == Neighbours(area, p)
  {
  }

  /**
   * A loop whose start sits in the bottom-right corner (`F7` over `LS`): the guarded read of the
   * tile right of the start is out of range, while the corrected rule finds the two loop tiles.
   */
  lemma CornerStartFallsOff()
    ensures NeighboursAsWritten([[SouthToEast, SouthToWest], [NorthToEast, Start]], Point(1, 1)).None?
    ensures Neighbours([[SouthToEast, SouthToWest], [NorthToEast, Start]], Point(1, 1)) == [Point(0, 1), Point(1, 0)]
  {
    var area := [[SouthToEast, SouthToWest], [NorthToEast, Start]];
    assert !InBounds(area, Point(2, 1));
  }

  /** `firstOrNull { it !in visited && area[it] != GROUND }`. */
  function FirstCandidate(area: Area, candidates: seq<Point>, visited: set<Point>): (r: Option<Point>)
    requires forall q | q in candidates :: InBounds(area, q)
    ensures r.Some? ==> r.value in candidates && r.value !in visited && At(area, r.value) != Ground
    ensures r.None? ==> forall q | q in candidates :: q in visited || At(area, q) == Ground
    ensures candidates != [] && candidates[0] !in visited && At(area, candidates[0]) != Ground ==> r == Some(candidates[0])
  {
    if candidates == [] then None
    else if candidates[0] !in visited && At(area, candidates[0]) != Ground then Some(candidates[0])
    else FirstCandidate(area, candidates[1..], visited)
  }

  /** `candidates.any { area[it] == START }`. */
  predicate AnyStart(area: Area, candidates: seq<Point>)
    requires forall q | q in candidates :: InBounds(area, q)
  {
    exists q | q in candidates :: At(area, q) == Start
  }

  /** All positions of the area. */
  function Cells(area: Area): set<Point>
  {
    set y, x | 0 <= y < |area| && 0 <= x < |area[y]| :: Point(x, y)
  }

  lemma InCells(area: Area, p: Point)
    requires InBounds(area, p)
    ensures p in Cells(area)
  {
    assert p == Point(p.x, p.y);
  }

  /**
   * The rest of `findLoopedPipe`'s walk from `current`, which is not yet in `visited`, with `pipe`
   * walked so far: mark `current`, move to its first unvisited non-ground neighbour; when there is
   * none, close the pipe with the start if a neighbour is a start tile.
   */
  function WalkOn(area: Area, s: Point, visited: set<Point>, current: Point, pipe: seq<Point>): seq<Point>
    requires InBounds(area, current) && current !in visited && visited <= Cells(area)
    decreases |Cells(area) - visited|
  {
    InCells(area, current);
    var seen := visited + {current};
    assert Cells(area) - seen == (Cells(area) - visited) - {current};
    var candidates := Neighbours(area, current);
    match FirstCandidate(area, candidates, seen)
    case None => if |pipe| > 0 && AnyStart(area, candidates) then pipe + [s] else pipe
    case Some(next) => WalkOn(area, s, seen, next, pipe + [next])
  }

  /** The points `findLoopedPipe` returns for an area whose start tile is `s`. */
  function LoopedPipe(area: Area, s: Point): seq<Point>
    requires InBounds(area, s)
  {
    WalkOn(area, s, {}, s, [])
  }

  /** `findLoopedPipe`: the walk from the start tile; an area without a start tile is an error. */
  method FindLoopedPipe(area: Area) returns (r: Option<seq<Point>>)
    ensures r.None? <==> StartPos(area).None?
    ensures r.Some? ==> r.value == LoopedPipe(area, StartPos(area).value)
  {
    var startPos := StartPos(area);
    if startPos.None? {
      return None;
    }
    var s := startPos.value;
    var visited: set<Point> := {};
    var pipe: seq<Point> := [];
    var current := s;
    while current !in visited
      invariant InBounds(area, current) && visited <= Cells(area) && current !in visited
      invariant WalkOn(area, s, visited, current, pipe) == LoopedPipe(area, s)
      decreases |Cells(area) - visited|
    {
      InCells(area, current);
      ghost var before := visited;
      visited := visited + {current};
      assert Cells(area) - visited == (Cells(area) - before) - {current};
      var candidates := Neighbours(area, current);
      var next := FirstCandidate(area, candidates, visited);
      if next.None? {
        if |pipe| > 0 && AnyStart(area, candidates) {
          pipe := pipe + [s];
        }
        break;
      }
      current := next.value;
      pipe := pipe + [current];
    }
    return Some(pipe);
  }

  /** The point walked to just before `pipe[i]`. */
  function Prev(s: Point, pipe: seq<Point>, i: nat): Point
    requires i < |pipe|
  {
    if i == 0 then s else pipe[i - 1]
  }

  /** The end of the walk so far. */
  function Last(s: Point, pipe: seq<Point>): Point
  {
    if pipe == [] then s else pipe[|pipe| - 1]
  }

  predicate Step(area: Area, p: Point, q: Point)
  {
    InBounds(area, p) && q in Neighbours(area, p)
  }

  /** `pipe[i]`, unless it is the start, is joined to the point before it. */
  predicate StepAt(area: Area, s: Point, pipe: seq<Point>, i: nat)
    requires i < |pipe|
  {
    pipe[i] != s ==> Step(area, Prev(s, pipe, i), pipe[i])
  }

  /** Every point of `pipe` other than the start is joined to the point before it. */
  predicate StepsExceptStart(area: Area, s: Point, pipe: seq<Point>)
  {
    forall i | 0 <= i < |pipe| :: StepAt(area, s, pipe, i)
  }

  function Elems(pipe: seq<Point>): set<Point>
  {
    set q | q in pipe
  }

  /** What holds at the head of each round of the walk. */
  ghost predicate WalkState(area: Area, s: Point, visited: set<Point>, current: Point, pipe: seq<Point>)
  {
    && InBounds(area, current) && current !in visited && visited <= Cells(area)
    && current == Last(s, pipe)
    && StepsExceptStart(area, s, pipe) && NoDuplicates(pipe) && s !in pipe
    && visited + {current} == {s} + Elems(pipe)
  }

  /** The shape of a returned pipe: each point once, the start at most once and only last. */
  ghost predicate LoopShape(area: Area, s: Point, r: seq<Point>)
  {
    && NoDuplicates(r)
    && (forall i | 0 <= i < |r| - 1 :: r[i] != s)
    && StepsExceptStart(area, s, r)
    && (|r| > 0 && r[|r| - 1] == s ==> |r| >= 2 && InBounds(area, r[|r| - 2]) && AnyStart(area, Neighbours(area, r[|r| - 2])))
  }

  /** Extending a walk by a step from its end. */
  lemma StepsAppend(area: Area, s: Point, pipe: seq<Point>, next: Point)
    requires StepsExceptStart(area, s, pipe) && Step(area, Last(s, pipe), next)
    ensures StepsExceptStart(area, s, pipe + [next])
  {
    var pipe' := pipe + [next];
    forall i | 0 <= i < |pipe'|
      ensures StepAt(area, s, pipe', i)
    {
      if i < |pipe| {
        assert StepAt(area, s, pipe, i);
        assert pipe'[i] == pipe[i];
        assert Prev(s, pipe', i) == Prev(s, pipe, i);
      }
    }
  }

  /** One round of the walk keeps its invariant. */
  lemma WalkAdvance(area: Area, s: Point, visited: set<Point>, current: Point, pipe: seq<Point>, next: Point)
    requires WalkState(area, s, visited, current, pipe)
    requires next in Neighbours(area, current) && next !in visited + {current}
    ensures WalkState(area, s, visited + {current}, next, pipe + [next])
  {
    InCells(area, current);
    var pipe' := pipe + [next];
    assert next !in Elems(pipe);
    NoDuplicatesAppend(pipe, [next]);
    assert Elems(pipe') == Elems(pipe) + {next};
    StepsAppend(area, s, pipe, next);
  }

  /** Where the walk stops, its pipe, closed with the start or not, has the loop's shape. */
  lemma WalkFinish(area: Area, s: Point, visited: set<Point>, current: Point, pipe: seq<Point>)
    requires WalkState(area, s, visited, current, pipe)
    ensures LoopShape(area, s, pipe)
    ensures |pipe| > 0 && AnyStart(area, Neighbours(area, current)) ==> LoopShape(area, s, pipe + [s])
  {
    if |pipe| > 0 && AnyStart(area, Neighbours(area, current)) {
      var r := pipe + [s];
      NoDuplicatesAppend(pipe, [s]);
      assert r[|r| - 2] == current;
      forall i | 0 <= i < |r|
        ensures StepAt(area, s, r, i)
      {
        if i < |pipe| {
          assert StepAt(area, s, pipe, i);
          assert r[i] == pipe[i];
          assert Prev(s, r, i) == Prev(s, pipe, i);
        }
      }
    }
  }

  /** The walk only extends the pipe it was given. */
  lemma {:induction false} WalkOnExtends(area: Area, s: Point, visited: set<Point>, current: Point, pipe: seq<Point>)
    requires InBounds(area, current) && current !in visited && visited <= Cells(area)
    ensures var r := WalkOn(area, s, visited, current, pipe); |pipe| <= |r| && r[..|pipe|] == pipe
    decreases |Cells(area) - visited|
  {
    InCells(area, current);
    var seen := visited + {current};
    assert Cells(area) - seen == (Cells(area) - visited) - {current};
    match FirstCandidate(area, Neighbours(area, current), seen)
    case None =>
      var r := WalkOn(area, s, visited, current, pipe);
      assert r == pipe || r == pipe + [s];
      assert (pipe + [s])[..|pipe|] == pipe;
    case Some(next) =>
      var r := WalkOn(area, s, seen, next, pipe + [next]);
      assert WalkOn(area, s, visited, current, pipe) == r;
      WalkOnExtends(area, s, seen, next, pipe + [next]);
      PrefixOfAppend(r, pipe, next);
  }

  lemma {:induction false} WalkOnShape(area: Area, s: Point, visited: set<Point>, current: Point, pipe: seq<Point>)
    requires WalkState(area, s, visited, current, pipe)
    ensures LoopShape(area, s, WalkOn(area, s, visited, current, pipe))
    decreases |Cells(area) - visited|
  {
    InCells(area, current);
    var seen := visited + {current};
    assert Cells(area) - seen == (Cells(area) - visited) - {current};
    match FirstCandidate(area, Neighbours(area, current), seen)
    case None =>
      WalkFinish(area, s, visited, current, pipe);
    case Some(next) =>
      WalkAdvance(area, s, visited, current, pipe, next);
      WalkOnShape(area, s, seen, next, pipe + [next]);
  }

  /**
   * `findLoopedPipe` visits each point once: the returned points are distinct, each is joined to the
   * one before it (the first to the start), and the start appears only as the closing element, put
   * there when the last point has a start tile among its neighbours.
   */
  lemma LoopedPipeShape(area: Area, s: Point)
    requires InBounds(area, s)
    ensures LoopShape(area, s, LoopedPipe(area, s))
  {
    assert Elems([]) == {};
    WalkOnShape(area, s, {}, s, []);
  }

  /** The walk leaves the start toward its first neighbour in the order right, down, left, up. */
  lemma LoopedPipeFirst(area: Area, s: Point)
    requires InBounds(area, s) && Neighbours(area, s) != []
    ensures var r := LoopedPipe(area, s); |r| > 0 && r[0] == Neighbours(area, s)[0]
  {
    var first := Neighbours(area, s)[0];
    assert Elems([]) == {};
    assert WalkState(area, s, {}, s, []);
    NeighboursAround(area, s);
    assert FirstCandidate(area, Neighbours(area, s), {s}) == Some(first);
    WalkAdvance(area, s, {}, s, [], first);
    assert {} + {s} == {s} && [] + [first] == [first];
    assert LoopedPipe(area, s) == WalkOn(area, s, {s}, first, [first]);
    WalkOnExtends(area, s, {s}, first, [first]);
  }

  /** With a single start tile, a closed pipe is a cycle: its last step leads back to the start. */
  lemma LoopedPipeCloses(area: Area, s: Point)
    requires InBounds(area, s) && At(area, s) == Start
    requires forall y, x | 0 <= y < |area| && 0 <= x < |area[y]| && area[y][x] == Start :: Point(x, y) == s
    ensures var r := LoopedPipe(area, s);
            |r| >= 2 && r[|r| - 1] == s ==> Step(area, r[|r| - 2], s)
  {
    LoopedPipeShape(area, s);
    var r := LoopedPipe(area, s);
    if |r| >= 2 && r[|r| - 1] == s {
      StartNeighbour(area, s, r[|r| - 2]);
    }
  }

  /** With a single start tile, a point next to some start tile is next to `s`. */
  lemma StartNeighbour(area: Area, s: Point, p: Point)
    requires forall y, x | 0 <= y < |area| && 0 <= x < |area[y]| && area[y][x] == Start :: Point(x, y) == s
    requires InBounds(area, p) && AnyStart(area, Neighbours(area, p))
    ensures Step(area, p, s)
  {
    var q :| q in Neighbours(area, p) && At(area, q) == Start;
    assert InBounds(area, q) && area[q.y][q.x] == Start;
    assert q == Point(q.x, q.y) == s;
  }

  /** `part1`: half the length of the looped pipe, the distance to its farthest point. */
  method Part1(lines: seq<string>) returns (r: Option<int>)
    ensures r.None? <==> ParseArea(lines).None? || StartPos(ParseArea(lines).value).None?
    ensures r.Some? ==> var area := ParseArea(lines).value; r.value == |LoopedPipe(area, StartPos(area).value)| / 2
  {
    var area := ParseArea(lines);
    if area.None? {
      return None;
    }
    var pipe := FindLoopedPipe(area.value);
    if pipe.None? {
      return None;
    }
    return Some(|pipe.value| / 2);
  }

  /** The tile `copyWithPipe` puts in place of the start, as written. */
  function StartShapeAsWritten(prevPos: Point, nextPos: Point): Pipe
  {
    if prevPos.x == nextPos.x then Vertical
    else if prevPos.y == nextPos.y then Horizontal
    else if prevPos.x < nextPos.x && prevPos.y < nextPos.y then SouthToWest
    else if prevPos.x < nextPos.x then SouthToEast
    else if prevPos.y < nextPos.y then NorthToWest
    else NorthToEast
  }

  /** The bend or straight that connects exactly the given sides (the start tile for any other set). */
  function ShapeJoining(right: bool, down: bool, left: bool, up: bool): (p: Pipe)
  {
    if up && down && !left && !right then Vertical
    else if left && right && !up && !down then Horizontal
    else if up && right && !down && !left then NorthToEast
    else if up && left && !down && !right then NorthToWest
    else if down && right && !up && !left then SouthToEast
    else if down && left && !up && !right then SouthToWest
    else Start
  }

  /**
   * The tile implied by the start's two loop neighbours: the one that connects toward each of
   * them. Points that are not two distinct neighbours of `s` keep the rule as written.
   */
  function StartShape(s: Point, prevPos: Point, nextPos: Point): Pipe
  {
    if Adjacent(s, prevPos) && Adjacent(s, nextPos) && prevPos != nextPos then
      var right, down, left, up := Point(s.x + 1, s.y), Point(s.x, s.y + 1), Point(s.x - 1, s.y), Point(s.x, s.y - 1);
      ShapeJoining(right in {prevPos, nextPos}, down in {prevPos, nextPos}, left in {prevPos, nextPos}, up in {prevPos, nextPos})
    else StartShapeAsWritten(prevPos, nextPos)
  }

  /** The replacement connects toward a side exactly when one of the two loop neighbours lies there. */
  lemma StartShapeJoins(s: Point, prevPos: Point, nextPos: Point)
    requires Adjacent(s, prevPos) && Adjacent(s, nextPos) && prevPos != nextPos
    ensures var p := StartShape(s, prevPos, nextPos);
            && (p.ConnectRight() <==> Point(s.x + 1, s.y) in {prevPos, nextPos})
            && (p.ConnectDown() <==> Point(s.x, s.y + 1) in {prevPos, nextPos})
            && (p.ConnectLeft() <==> Point(s.x - 1, s.y) in {prevPos, nextPos})
            && (p.ConnectUp() <==> Point(s.x, s.y - 1) in {prevPos, nextPos})
            && p != Start
  {
  }

  /**
   * A start whose loop neighbours are above it (the point before it) and to its right (the first
   * point of the pipe, since the walk tries the right first) is turned into `7`, which connects
   * neither of them; the corrected rule gives `L`.
   */
  lemma UpRightStartMisread()
    ensures StartShapeAsWritten(Point(0, 0), Point(1, 1)) == SouthToWest
    ensures !SouthToWest.ConnectUp() && !SouthToWest.ConnectRight()
    ensures StartShape(Point(0, 1), Point(0, 0), Point(1, 1)) == NorthToEast
  {
  }

  /** A row of `w` ground tiles. */
  function Blank(w: nat): (row: seq<Pipe>)
    ensures |row| == w && forall i | 0 <= i < w :: row[i] == Ground
  {
    if w == 0 then [] else Blank(w - 1) + [Ground]
  }

  /** `h` rows of `w` ground tiles. */
  function BlankGrid(h: nat, w: nat): (g: seq<seq<Pipe>>)
    ensures |g| == h && forall y | 0 <= y < h :: g[y] == Blank(w)
  {
    if h == 0 then [] else BlankGrid(h - 1, w) + [Blank(w)]
  }

  /** Every pipe point lies in the area and in the width of its first row. */
  predicate Fits(area: Area, pipe: seq<Point>)
  {
    forall i | 0 <= i < |pipe| :: InBounds(area, pipe[i]) && pipe[i].x < Width(area)
  }

  /** The tile written for `pipe[idx]`: its own, or the shape implied for the start. */
  function CellValue(area: Area, pipe: seq<Point>, idx: nat): Pipe
    requires idx < |pipe| && InBounds(area, pipe[idx])
  {
    var pos := pipe[idx];
    if At(area, pos) == Start then
      var prevPos := if idx > 0 then pipe[idx - 1] else pipe[|pipe| - 1];
      var nextPos := if idx < |pipe| - 1 then pipe[idx + 1] else pipe[0];
      StartShape(pos, prevPos, nextPos)
    else At(area, pos)
  }

  /** The blank grid after the first `k` pipe points have been written. */
  function Painted(area: Area, pipe: seq<Point>, k: nat): (g: seq<seq<Pipe>>)
    requires k <= |pipe| && Fits(area, pipe)
    ensures |g| == |area| && forall y | 0 <= y < |g| :: |g[y]| == Width(area)
  {
    if k == 0 then BlankGrid(|area|, Width(area))
    else
      var g := Painted(area, pipe, k - 1);
      var pos := pipe[k - 1];
      g[pos.y := g[pos.y][pos.x := CellValue(area, pipe, k - 1)]]
  }

  /** The last index below `k` where `p` occurs in `pipe`. */
  function LastIndexBelow(pipe: seq<Point>, p: Point, k: nat): (r: Option<nat>)
    requires k <= |pipe|
    ensures r.Some? ==> r.value < k && pipe[r.value] == p && forall j | r.value < j < k :: pipe[j] != p
    ensures r.None? ==> forall j | 0 <= j < k :: pipe[j] != p
  {
    if k == 0 then None else if pipe[k - 1] == p then Some(k - 1) else LastIndexBelow(pipe, p, k - 1)
  }

  /**
   * `copyWithPipe`'s result, cell by cell: ground off the pipe, and on it the tile of the last
   * write there (the area's own tile, or the implied shape for the start).
   */
  lemma {:induction false} PaintedCell(area: Area, pipe: seq<Point>, k: nat, x: int, y: int)
    requires k <= |pipe| && Fits(area, pipe) && 0 <= y < |area| && 0 <= x < Width(area)
    ensures var g := Painted(area, pipe, k);
            match LastIndexBelow(pipe, Point(x, y), k)
            case None => g[y][x] == Ground
            case Some(i) => g[y][x] == CellValue(area, pipe, i)
  {
    if k > 0 {
      PaintedCell(area, pipe, k - 1, x, y);
    }
  }

  /** `copyWithPipe`: a ground grid of the area's size with the pipe's tiles written in, in order. */
  method CopyWithPipe(area: Area, pipe: seq<Point>) returns (rows: seq<seq<Pipe>>)
    requires Fits(area, pipe)
    ensures rows == Painted(area, pipe, |pipe|)
  {
    var width := Width(area);
    rows := [];
    for r := 0 to |area|
      invariant rows == BlankGrid(r, width)
    {
      var row: seq<Pipe> := [];
      for c := 0 to width
        invariant row == Blank(c)
      {
        row := row + [Ground];
      }
      rows := rows + [row];
    }
    for idx := 0 to |pipe|
      invariant rows == Painted(area, pipe, idx)
    {
      var pos := pipe[idx];
      var value := At(area, pos);
      if value == Start {
        var prevPos := if idx > 0 then pipe[idx - 1] else pipe[|pipe| - 1];
        var nextPos := if idx < |pipe| - 1 then pipe[idx + 1] else pipe[0];
        value := StartShape(pos, prevPos, nextPos);
      }
      rows := rows[pos.y := rows[pos.y][pos.x := value]];
    }
  }

  /** The state of `isInside`'s scan: the column of an open bend (or -1) and the crossings so far. */
  datatype ScanState = ScanState(segmentStart: int, count: nat)

  /** One column of the scan. */
  function Feed(row: seq<Pipe>, st: ScanState, col: nat): ScanState
    requires col < |row| && (st.segmentStart == -1 || 0 <= st.segmentStart < |row|)
  {
    var pipe := row[col];
    match VerticalConnections(pipe)
    case 1 =>
      if st.segmentStart != -1 then
        ScanState(-1, st.count + (if row[st.segmentStart].ConnectUp() == pipe.ConnectDown() then 1 else 0))
      else ScanState(col, st.count)
    case 2 => ScanState(st.segmentStart, st.count + 1)
    case _ => st
  }

  /** The scan over columns `lo..hi-1`. */
  function Scan(row: seq<Pipe>, lo: nat, hi: nat): (st: ScanState)
    requires lo <= hi <= |row|
    ensures st.segmentStart == -1 || lo <= st.segmentStart < hi
    decreases hi
  {
    if hi == lo then ScanState(-1, 0) else Feed(row, Scan(row, lo, hi - 1), hi - 1)
  }

  /** The crossings counted right of column `x`. */
  function Crossings(row: seq<Pipe>, x: int): nat
    requires x >= -1
  {
    if x + 1 <= |row| then Scan(row, x + 1, |row|).count else 0
  }

  /** `isInside`: the scan hi the right of `(x, y)` counts an odd number of crossings. */
  method IsInside(area: Area, x: int, y: int) returns (r: bool)
    requires 0 <= y < |area| && x >= -1
    ensures r <==> Crossings(area[y], x) % 2 != 0
  {
    var row := area[y];
    var segmentStartIdx := -1;
    var count := 0;
    var col := x + 1;
    while col < |row|
      invariant x + 1 <= col && (col <= |row| || col == x + 1)
      invariant col <= |row| ==> ScanState(segmentStartIdx, count) == Scan(row, x + 1, col)
      invariant col > |row| ==> segmentStartIdx == -1 && count == 0
      decreases |row| - col
    {
      var pipe := row[col];
      match VerticalConnections(pipe) {
        case 1 =>
          if segmentStartIdx != -1 {
            if row[segmentStartIdx].ConnectUp() == pipe.ConnectDown() {
              count := count + 1;
            }
            segmentStartIdx := -1;
          } else {
            segmentStartIdx := col;
          }
        case 2 =>
          count := count + 1;
        case _ =>
      }
      col := col + 1;
    }
    r := count % 2 != 0;
  }

  /** The number of tiles in columns `lo..hi-1` that connect upward. */
  function Ups(row: seq<Pipe>, lo: nat, hi: nat): nat
    requires lo <= hi <= |row|
    decreases hi
  {
    if hi == lo then 0 else Ups(row, lo, hi - 1) + (if row[hi - 1].ConnectUp() then 1 else 0)
  }

  /** 1 when the scan ends on an open bend that connects upward. */
  function Dangling(row: seq<Pipe>, st: ScanState): nat
    requires st.segmentStart == -1 || 0 <= st.segmentStart < |row|
  {
    if st.segmentStart != -1 && row[st.segmentStart].ConnectUp() then 1 else 0
  }

  /**
   * The scan counts crossings by parity of upward connections: a straight `|` (or the start)
   * crosses once, a bend pair crosses once exactly when one of its two bends connects upward (`L…7`
   * and `F…J`), and not at all otherwise (`L…J`, `F…7`).
   */
  lemma {:induction false} ScanParity(row: seq<Pipe>, lo: nat, hi: nat)
    requires lo <= hi <= |row|
    ensures (Scan(row, lo, hi).count + Dangling(row, Scan(row, lo, hi))) % 2 == Ups(row, lo, hi) % 2
    decreases hi
  {
    if lo < hi {
      ScanParity(row, lo, hi - 1);
    }
  }

  /** A tile is enclosed when, with every bend right of it closed, an odd number of them connect upward. */
  lemma InsideByUps(row: seq<Pipe>, x: int)
    requires -1 <= x && x + 1 <= |row| && Scan(row, x + 1, |row|).segmentStart == -1
    ensures Crossings(row, x) % 2 != 0 <==> Ups(row, x + 1, |row|) % 2 == 1
  {
    ScanParity(row, x + 1, |row|);
  }

  /** Ground tiles of the first `k` columns of a row that the scan finds enclosed. */
  function EnclosedInRow(row: seq<Pipe>, k: nat): nat
    requires k <= |row|
  {
    if k == 0 then 0
    else EnclosedInRow(row, k - 1) + (if row[k - 1] == Ground && Crossings(row, k - 1) % 2 != 0 then 1 else 0)
  }

  /** Enclosed ground tiles in the first `k` rows of a grid whose rows all have length `w`. */
  function EnclosedRows(grid: seq<seq<Pipe>>, w: nat, k: nat): nat
    requires k <= |grid| && forall y | 0 <= y < |grid| :: |grid[y]| == w
  {
    if k == 0 then 0 else EnclosedRows(grid, w, k - 1) + EnclosedInRow(grid[k - 1], w)
  }

  /** `part2`'s scan of every ground tile of the loop-only copy, row by row. */
  method CountEnclosed(grid: seq<seq<Pipe>>, width: nat) returns (count: nat)
    requires forall y | 0 <= y < |grid| :: |grid[y]| == width
    ensures count == EnclosedRows(grid, width, |grid|)
  {
    count := 0;
    for y := 0 to |grid|
      invariant count == EnclosedRows(grid, width, y)
    {
      for x := 0 to width
        invariant count == EnclosedRows(grid, width, y) + EnclosedInRow(grid[y], x)
      {
        if grid[y][x] == Ground {
          var inside := IsInside(grid, x, y);
          if inside {
            count := count + 1;
          }
        }
      }
    }
  }

  /** `part2`: the number of ground tiles of the loop-only copy that `isInside` finds enclosed. */
  method Part2(lines: seq<string>) returns (r: Option<int>)
    ensures r.Some? ==>
              && ParseArea(lines).Some? && StartPos(ParseArea(lines).value).Some?
              && var area := ParseArea(lines).value;
                 var pipe := LoopedPipe(area, StartPos(area).value);
                 Fits(area, pipe) && r.value == EnclosedRows(Painted(area, pipe, |pipe|), Width(area), |area|)
    ensures r.None? ==>
              || ParseArea(lines).None? || StartPos(ParseArea(lines).value).None?
              || !Fits(ParseArea(lines).value, LoopedPipe(ParseArea(lines).value, StartPos(ParseArea(lines).value).value))
  {
    var parsed := ParseArea(lines);
    if parsed.None? {
      return None;
    }
    var area := parsed.value;
    var pipe := FindLoopedPipe(area);
    if pipe.None? || !Fits(area, pipe.value) {
      return None;
    }
    var grid := CopyWithPipe(area, pipe.value);
    var count := CountEnclosed(grid, Width(area));
    return Some(count);
  }
}
