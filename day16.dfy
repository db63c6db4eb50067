/**
 * Day 16 ("The Floor Will Be Lava"): photons travel through a grid of empty
 * cells, mirrors and splitters; the number of cells some photon passes
 * through is the energy of a starting photon.
 */
module Day16 {
  import opened Common

  datatype Direction = Right | Down | Left | Up

  const AllDirections: set<Direction> := {Right, Down, Left, Up}

  lemma AnyDirection(d: Direction)
    ensures d in AllDirections
  {
    match d
    case Right =>
    case Down =>
    case Left =>
    case Up =>
  }

  /** A cell position; the source keeps the set of directions seen per tile. */
  datatype Tile = Tile(x: int, y: int)

  datatype Photon = Photon(x: int, y: int, dir: Direction)

  type Layout = seq<seq<char>>

  /** Frame character put around the grid. */
  const Frame: char := 'x'

  /** `bordered` as written: the frame rows have one cell per ROW of the grid plus two. */
  function BorderedAsWritten(grid: Layout): (r: Layout)
    ensures |r| == |grid| + 2
  {
    var extra := seq(|grid| + 2, _ => Frame);
    [extra] + seq(|grid|, i requires 0 <= i < |grid| => [Frame] + grid[i] + [Frame]) + [extra]
  }

  /** Width of a grid, taken from its first row. */
  function GridWidth(grid: Layout): nat
  {
    if |grid| == 0 then 0 else |grid[0]|
  }

  /** `bordered` as intended: frame rows as wide as the framed rows. */
  function Bordered(grid: Layout): (r: Layout)
    ensures |r| == |grid| + 2
  {
    var extra := seq(GridWidth(grid) + 2, _ => Frame);
    [extra] + seq(|grid|, i requires 0 <= i < |grid| => [Frame] + grid[i] + [Frame]) + [extra]
  }

  predicate Rectangular(grid: Layout, w: nat)
  {
    forall y | 0 <= y < |grid| :: |grid[y]| == w
  }

  /**
   * A framed layout: rectangular, at least 2 by 2, with the frame character
   * all around its edge.
   */
  predicate Framed(layout: Layout)
  {
    && |layout| >= 2
    && |layout[0]| >= 2
    && Rectangular(layout, |layout[0]|)
    && (forall x | 0 <= x < |layout[0]| :: layout[0][x] == Frame && layout[|layout| - 1][x] == Frame)
    && (forall y | 0 <= y < |layout| :: layout[y][0] == Frame && layout[y][|layout[0]| - 1] == Frame)
  }

  /** The frame keeps the grid's cells, shifted one right and one down, and frames a rectangular grid. */
  lemma BorderedCells(grid: Layout)
    ensures var r := Bordered(grid);
            forall y, x | 0 <= y < |grid| && 0 <= x < |grid[y]| :: r[y + 1][x + 1] == grid[y][x]
    ensures Rectangular(grid, GridWidth(grid)) ==> Framed(Bordered(grid))
  {
    var r := Bordered(grid);
    forall y, x | 0 <= y < |grid| && 0 <= x < |grid[y]|
      ensures r[y + 1][x + 1] == grid[y][x]
    {
      assert r[y + 1] == [Frame] + grid[y] + [Frame];
    }
    if Rectangular(grid, GridWidth(grid)) {
      forall y | 0 <= y < |r|
        ensures |r[y]| == GridWidth(grid) + 2 && r[y][0] == Frame && r[y][|r[y]| - 1] == Frame
      {
        if 0 < y < |r| - 1 {
          assert r[y] == [Frame] + grid[y - 1] + [Frame];
        }
      }
    }
  }

  /** On a square grid the frame as written is the intended one. */
  lemma BorderedAsWrittenSquare(grid: Layout)
    requires Rectangular(grid, |grid|)
    ensures BorderedAsWritten(grid) == Bordered(grid)
  {
    assert |grid| == 0 || GridWidth(grid) == |grid|;
  }

  predicate IsTile(layout: Layout, x: int, y: int)
  {
    0 <= y < |layout| && 0 <= x < |layout[y]|
  }

  /** Every cell of the layout, as the source's tile map keys. */
  function TileSet(layout: Layout): set<Tile>
  {
    set y, x | 0 <= y < |layout| && 0 <= x < |layout[y]| :: Tile(x, y)
  }

  /** Every photon standing on a cell of the layout. */
  ghost function AllPhotons(layout: Layout): set<Photon>
  {
    set y, x, d | 0 <= y < |layout| && 0 <= x < |layout[y]| && d in AllDirections :: Photon(x, y, d)
  }

  function DeltaX(d: Direction): int
  {
    match d
    case Right => 1
    case Left => -1
    case _ => 0
  }

  function DeltaY(d: Direction): int
  {
    match d
    case Down => 1
    case Up => -1
    case _ => 0
  }

  /** The directions a photon moving in `d` leaves with once it enters a cell holding `c`. */
  function Turn(c: char, d: Direction): seq<Direction>
  {
    match d
    case Right =>
      if c == '.' || c == '-' then [Right]
      else if c == '/' then [Up]
      else if c == '\\' then [Down]
      else if c == '|' then [Down, Up]
      else []
    case Down =>
      if c == '.' || c == '|' then [Down]
      else if c == '/' then [Left]
      else if c == '\\' then [Right]
      else if c == '-' then [Left, Right]
      else []
    case Left =>
      if c == '.' || c == '-' then [Left]
      else if c == '/' then [Down]
      else if c == '\\' then [Up]
      else if c == '|' then [Down, Up]
      else []
    case Up =>
      if c == '.' || c == '|' then [Up]
      else if c == '/' then [Right]
      else if c == '\\' then [Left]
      else if c == '-' then [Right, Left]
      else []
  }

  function Opposite(d: Direction): Direction
  {
    match d
    case Right => Left
    case Down => Up
    case Left => Right
    case Up => Down
  }

  predicate Horizontal(d: Direction)
  {
    d == Right || d == Left
  }

  /** The mirror table: '/' and '\' each send a photon on in exactly one new direction. */
  lemma MirrorTable()
    ensures Turn('/', Right) == [Up] && Turn('/', Down) == [Left] && Turn('/', Left) == [Down] && Turn('/', Up) == [Right]
    ensures Turn('\\', Right) == [Down] && Turn('\\', Down) == [Right] && Turn('\\', Left) == [Up] && Turn('\\', Up) == [Left]
  {
  }

  /** A mirror sends a photon coming back along its way out back along its way in. */
  lemma MirrorReversible(c: char, d: Direction)
    requires c == '/' || c == '\\'
    ensures |Turn(c, d)| == 1 && Turn(c, Opposite(Turn(c, d)[0])) == [Opposite(d)]
  {
  }

  /**
   * A splitter met on its flat side yields two photons going off at right
   * angles; met on its pointy end it lets the photon pass like an empty cell.
   */
  lemma SplitterSides(c: char, d: Direction)
    requires c == '|' || c == '-'
    ensures var pointy := if c == '|' then !Horizontal(d) else Horizontal(d);
            if pointy then Turn(c, d) == Turn('.', d) == [d]
            else |Turn(c, d)| == 2 && Turn(c, d)[0] != Turn(c, d)[1]
                 && forall e | e in Turn(c, d) :: Horizontal(e) != Horizontal(d)
  {
  }

  /** Moving onto the frame (or any character outside the table) yields no photon. */
  lemma FrameAbsorbs(c: char, d: Direction)
    requires c !in {'.', '-', '|', '/', '\\'}
    ensures Turn(c, d) == []
  {
  }

  /**
   * The photons produced by one step of `photon`, or `None` when the cell it
   * moves to is outside the layout (the source then fails on the index).
   */
  function Next(layout: Layout, p: Photon): (r: Option<seq<Photon>>)
    ensures r.Some? <==> IsTile(layout, p.x + DeltaX(p.dir), p.y + DeltaY(p.dir))
    ensures r.Some? ==> forall q | q in r.value :: IsTile(layout, q.x, q.y) && q.x == p.x + DeltaX(p.dir) && q.y == p.y + DeltaY(p.dir)
  {
    var x, y := p.x + DeltaX(p.dir), p.y + DeltaY(p.dir);
    if IsTile(layout, x, y) then
      var dirs := Turn(layout[y][x], p.dir);
      Some(seq(|dirs|, i requires 0 <= i < |dirs| => Photon(x, y, dirs[i])))
    else None
  }

  /** A photon produced by a step has a direction from the turn table of the cell it stands on. */
  lemma NextTurns(layout: Layout, p: Photon, q: Photon)
    requires Next(layout, p).Some? && q in Next(layout, p).value
    ensures q.dir in Turn(layout[q.y][q.x], p.dir)
  {
  }

  /** `q` is one of the photons one step of `p` yields. */
  predicate Hop(layout: Layout, p: Photon, q: Photon)
  {
    Next(layout, p).Some? && q in Next(layout, p).value
  }

  ghost predicate Path(layout: Layout, ps: seq<Photon>)
  {
    forall i | 0 <= i < |ps| - 1 :: Hop(layout, ps[i], ps[i + 1])
  }

  /** `ps` is a path of photons from `start` to `q`. */
  ghost predicate Walk(layout: Layout, start: Photon, ps: seq<Photon>, q: Photon)
  {
    |ps| > 0 && ps[0] == start && ps[|ps| - 1] == q && Path(layout, ps)
  }

  ghost predicate Reaches(layout: Layout, start: Photon, q: Photon)
  {
    exists ps :: Walk(layout, start, ps, q)
  }

  /** All photons that descend from `start`: what the worklist of `countEnergized` explores. */
  ghost function Beam(layout: Layout, start: Photon): set<Photon>
  {
    set q | q in AllPhotons(layout) + {start} && Reaches(layout, start, q)
  }

  function TilesOf(s: set<Photon>): set<Tile>
  {
    set q | q in s :: Tile(q.x, q.y)
  }

  /**
   * The energy of `start`: the cells its beam passes through, less the
   * starting frame cell; `None` when the source would fail on an index.
   */
  ghost function Energized(layout: Layout, start: Photon): Option<int>
  {
    if !IsTile(layout, start.x, start.y) || exists q | q in Beam(layout, start) :: Next(layout, q).None? then None
    else Some(|TilesOf(Beam(layout, start))| - 1)
  }

  lemma ReachesSelf(layout: Layout, start: Photon)
    ensures Reaches(layout, start, start)
  {
    assert Walk(layout, start, [start], start);
  }

  lemma ReachesHop(layout: Layout, start: Photon, p: Photon, q: Photon)
    requires Reaches(layout, start, p) && Hop(layout, p, q)
    ensures Reaches(layout, start, q)
  {
    var ps :| Walk(layout, start, ps, p);
    var ps' := ps + [q];
    forall i | 0 <= i < |ps'| - 1
      ensures Hop(layout, ps'[i], ps'[i + 1])
    {
      if i < |ps| - 1 {
        assert Hop(layout, ps[i], ps[i + 1]);
      }
    }
    assert Walk(layout, start, ps', q);
  }

  /** `s` holds the successors of each of its photons, none of which runs off the layout. */
  ghost predicate Closed(layout: Layout, s: set<Photon>)
  {
    forall q | q in s :: Next(layout, q).Some? && forall n | n in Next(layout, q).value :: n in s
  }

  lemma {:induction false} WalkWithin(layout: Layout, s: set<Photon>, start: Photon, ps: seq<Photon>)
    requires Closed(layout, s) && start in s
    requires |ps| > 0 && ps[0] == start && Path(layout, ps)
    ensures ps[|ps| - 1] in s
    decreases |ps|
  {
    if |ps| > 1 {
      var init := ps[..|ps| - 1];
      assert Path(layout, init) by {
        forall i | 0 <= i < |init| - 1
          ensures Hop(layout, init[i], init[i + 1])
        {
          assert Hop(layout, ps[i], ps[i + 1]);
        }
      }
      WalkWithin(layout, s, start, init);
      assert Hop(layout, ps[|ps| - 2], ps[|ps| - 1]);
    }
  }

  /** The beam is the least closed set holding the start. */
  lemma BeamWithin(layout: Layout, s: set<Photon>, start: Photon)
    requires Closed(layout, s) && start in s
    ensures Beam(layout, start) <= s
  {
    forall q | q in Beam(layout, start)
      ensures q in s
    {
      var ps :| Walk(layout, start, ps, q);
      WalkWithin(layout, s, start, ps);
    }
  }

  /** Each photon of a beam other than the start stands on a tile. */
  lemma ReachesTile(layout: Layout, start: Photon, q: Photon)
    requires Reaches(layout, start, q) && q != start
    ensures q in AllPhotons(layout)
  {
    var ps :| Walk(layout, start, ps, q);
    assert Hop(layout, ps[|ps| - 2], q);
    AnyDirection(q.dir);
  }

  /** The tile map records exactly the photons expanded so far. */
  ghost predicate Records(layout: Layout, dirs: map<Tile, set<Direction>>, seen: set<Photon>)
  {
    && dirs.Keys == TileSet(layout)
    && seen <= AllPhotons(layout)
    && (forall t, d | t in dirs :: d in dirs[t] <==> Photon(t.x, t.y, d) in seen)
  }

  /** Every photon already expanded has its successors expanded or waiting. */
  ghost predicate Covered(layout: Layout, seen: set<Photon>, photons: seq<Photon>)
  {
    forall q | q in seen :: Next(layout, q).Some? && forall n | n in Next(layout, q).value :: n in seen || n in photons
  }

  lemma TileInSet(layout: Layout, x: int, y: int)
    requires IsTile(layout, x, y)
    ensures Tile(x, y) in TileSet(layout)
  {
  }

  /** Recording `p`: its tile gains its direction. */
  lemma RecordsAdd(layout: Layout, dirs: map<Tile, set<Direction>>, seen: set<Photon>, p: Photon)
    requires Records(layout, dirs, seen) && IsTile(layout, p.x, p.y)
    ensures Tile(p.x, p.y) in dirs
    ensures var t := Tile(p.x, p.y);
            Records(layout, dirs[t := dirs[t] + {p.dir}], seen + {p})
  {
    TileInSet(layout, p.x, p.y);
    AnyDirection(p.dir);
  }

  /** The tiles with some direction recorded are the tiles of the recorded photons. */
  lemma RecordsTiles(layout: Layout, dirs: map<Tile, set<Direction>>, seen: set<Photon>)
    requires Records(layout, dirs, seen)
    ensures (set t | t in dirs && dirs[t] != {}) == TilesOf(seen)
  {
    forall t | t in dirs && dirs[t] != {}
      ensures t in TilesOf(seen)
    {
      var d :| d in dirs[t];
      assert Photon(t.x, t.y, d) in seen;
    }
    forall t | t in TilesOf(seen)
      ensures t in dirs && dirs[t] != {}
    {
      var q :| q in seen && t == Tile(q.x, q.y);
      assert q in AllPhotons(layout);
      TileInSet(layout, q.x, q.y);
      assert q == Photon(t.x, t.y, q.dir);
    }
  }

  /** What the worklist loop keeps: what it has expanded or queued descends from the start, and nothing is lost. */
  ghost predicate Explored(layout: Layout, start: Photon, seen: set<Photon>, photons: seq<Photon>)
  {
    && seen <= AllPhotons(layout)
    && (forall q | q in photons :: IsTile(layout, q.x, q.y))
    && (forall q | q in seen :: Reaches(layout, start, q))
    && (forall q | q in photons :: Reaches(layout, start, q))
    && Covered(layout, seen, photons)
    && (start in seen || start in photons)
  }

  lemma ExploredStart(layout: Layout, start: Photon)
    requires IsTile(layout, start.x, start.y)
    ensures Explored(layout, start, {}, [start])
  {
    ReachesSelf(layout, start);
  }

  /** Dropping a photon already expanded keeps the loop invariant. */
  lemma ExploredSkip(layout: Layout, start: Photon, seen: set<Photon>, photons: seq<Photon>)
    requires Explored(layout, start, seen, photons) && photons != [] && photons[0] in seen
    ensures Explored(layout, start, seen, photons[1..])
  {
    forall q | q in seen
      ensures Next(layout, q).Some? && forall n | n in Next(layout, q).value :: n in seen || n in photons[1..]
    {
      forall n | n in Next(layout, q).value
        ensures n in seen || n in photons[1..]
      {
        assert n in photons ==> n == photons[0] || n in photons[1..];
      }
    }
  }

  /** Expanding a new photon whose step stays on the layout keeps the loop invariant. */
  lemma ExploredExpand(layout: Layout, start: Photon, seen: set<Photon>, photons: seq<Photon>)
    requires Explored(layout, start, seen, photons) && photons != [] && photons[0] !in seen
    requires Next(layout, photons[0]).Some?
    ensures |AllPhotons(layout) - (seen + {photons[0]})| < |AllPhotons(layout) - seen|
    ensures Explored(layout, start, seen + {photons[0]}, photons[1..] + Next(layout, photons[0]).value)
  {
    var p, rest := photons[0], photons[1..];
    var next := Next(layout, p).value;
    var seen', photons' := seen + {p}, rest + next;
    AnyDirection(p.dir);
    assert AllPhotons(layout) - seen' < AllPhotons(layout) - seen;
    forall n | n in next
      ensures Reaches(layout, start, n)
    {
      ReachesHop(layout, start, p, n);
    }
    forall q | q in seen'
      ensures Next(layout, q).Some? && forall n | n in Next(layout, q).value :: n in seen' || n in photons'
    {
      if q != p {
        forall n | n in Next(layout, q).value
          ensures n in seen' || n in photons'
        {
          assert n in photons ==> n == p || n in rest;
        }
      }
    }
  }

  /** A photon that runs off the layout makes the whole run fail. */
  lemma ExploredFails(layout: Layout, start: Photon, seen: set<Photon>, photons: seq<Photon>)
    requires Explored(layout, start, seen, photons) && photons != [] && Next(layout, photons[0]).None?
    requires IsTile(layout, start.x, start.y)
    ensures Energized(layout, start) == None
  {
    var p := photons[0];
    AnyDirection(p.dir);
    assert p in AllPhotons(layout);
    assert p in Beam(layout, start);
  }

  /** With the worklist empty, the photons expanded are exactly the beam, and the marked tiles its tiles. */
  lemma ExploredDone(layout: Layout, start: Photon, dirs: map<Tile, set<Direction>>, seen: set<Photon>)
    requires Explored(layout, start, seen, []) && IsTile(layout, start.x, start.y)
    requires Records(layout, dirs, seen)
    ensures Energized(layout, start) == Some(|set t | t in dirs && dirs[t] != {}| - 1)
  {
    assert Closed(layout, seen);
    BeamWithin(layout, seen, start);
    assert Beam(layout, start) == seen;
    RecordsTiles(layout, dirs, seen);
  }

  /**
   * `countEnergized`: a FIFO worklist of photons and, per tile, the set of
   * directions already expanded there, so that each (tile, direction) pair
   * is expanded at most once.
   */
  method CountEnergized(layout: Layout, start: Photon) returns (r: Option<int>)
    ensures r == Energized(layout, start)
  {
    if !IsTile(layout, start.x, start.y) {
      return None;
    }
    var dirs: map<Tile, set<Direction>> := map t | t in TileSet(layout) :: {};
    var photons := [start];
    ghost var seen: set<Photon> := {};
    ExploredStart(layout, start);
    while photons != []
      invariant Records(layout, dirs, seen)
      invariant Explored(layout, start, seen, photons)
      decreases |AllPhotons(layout) - seen|, |photons|
    {
      var photon := photons[0];
      var tile := Tile(photon.x, photon.y);
      TileInSet(layout, photon.x, photon.y);
      if photon.dir in dirs[tile] {
        ExploredSkip(layout, start, seen, photons);
        photons := photons[1..];
        continue;
      }
      var next := Next(layout, photon);
      if next.None? {
        ExploredFails(layout, start, seen, photons);
        return None;
      }
      ExploredExpand(layout, start, seen, photons);
      RecordsAdd(layout, dirs, seen, photon);
      dirs := dirs[tile := dirs[tile] + {photon.dir}];
      seen := seen + {photon};
      photons := photons[1..] + next.value;
    }
    ExploredDone(layout, start, dirs, seen);
    return Some(|set t | t in dirs && dirs[t] != {}| - 1);
  }

  /** A photon that looks from a tile onto a tile. */
  predicate Inward(layout: Layout, p: Photon)
  {
    IsTile(layout, p.x, p.y) && IsTile(layout, p.x + DeltaX(p.dir), p.y + DeltaY(p.dir))
  }

  /** A photon produced by a step stands on a cell that is not the frame. */
  lemma HopOffFrame(layout: Layout, p: Photon, q: Photon)
    requires Hop(layout, p, q)
    ensures layout[q.y][q.x] != Frame
  {
    NextTurns(layout, p, q);
  }

  /** A cell of a framed layout that is not the frame has all four neighbours on the layout. */
  lemma InnerCell(layout: Layout, q: Photon)
    requires Framed(layout) && IsTile(layout, q.x, q.y) && layout[q.y][q.x] != Frame
    ensures Next(layout, q).Some?
  {
    var w := |layout[0]|;
    assert |layout[q.y]| == w;
    assert q.y != 0 && q.y != |layout| - 1 by {
      assert layout[0][q.x] == Frame && layout[|layout| - 1][q.x] == Frame;
    }
    assert q.x != 0 && q.x != w - 1 by {
      assert layout[q.y][0] == Frame && layout[q.y][w - 1] == Frame;
    }
    assert |layout[q.y + DeltaY(q.dir)]| == w;
  }

  /**
   * On a framed layout no photon of the beam runs off the layout, whatever
   * the grid holds, as long as the start looks onto the layout.
   */
  lemma FramedNeverFails(layout: Layout, start: Photon)
    requires Framed(layout) && Inward(layout, start)
    ensures Energized(layout, start).Some?
  {
    forall q | q in Beam(layout, start)
      ensures Next(layout, q).Some?
    {
      if q != start {
        var ps :| Walk(layout, start, ps, q);
        assert Hop(layout, ps[|ps| - 2], q);
        HopOffFrame(layout, ps[|ps| - 2], q);
        InnerCell(layout, q);
      }
    }
  }

  /** The photons `part2` tries: inward from both sides of each inner row, then from both ends of each inner column. */
  function EdgeStarts(layout: Layout): seq<Photon>
    requires |layout| > 0
  {
    SideStarts(layout, 1) + EndStarts(layout, 1)
  }

  function SideStarts(layout: Layout, y: nat): seq<Photon>
    requires |layout| > 0
    decreases |layout| - y
  {
    if y + 1 >= |layout| then []
    else [Photon(0, y, Right), Photon(|layout[0]| - 1, y, Left)] + SideStarts(layout, y + 1)
  }

  function EndStarts(layout: Layout, x: nat): seq<Photon>
    requires |layout| > 0
    decreases |layout[0]| - x
  {
    if x + 1 >= |layout[0]| then []
    else [Photon(x, 0, Down), Photon(x, |layout| - 1, Up)] + EndStarts(layout, x + 1)
  }

  lemma {:induction false} SideStartsInward(layout: Layout, y: nat)
    requires Framed(layout) && y > 0
    ensures |SideStarts(layout, y)| == if y + 1 >= |layout| then 0 else 2 * (|layout| - 1 - y)
    ensures forall p | p in SideStarts(layout, y) :: Inward(layout, p)
    decreases |layout| - y
  {
    if y + 1 < |layout| {
      SideStartsInward(layout, y + 1);
      assert |layout[y]| == |layout[0]|;
    }
  }

  lemma {:induction false} EndStartsInward(layout: Layout, x: nat)
    requires Framed(layout) && x > 0
    ensures |EndStarts(layout, x)| == if x + 1 >= |layout[0]| then 0 else 2 * (|layout[0]| - 1 - x)
    ensures forall p | p in EndStarts(layout, x) :: Inward(layout, p)
    decreases |layout[0]| - x
  {
    if x + 1 < |layout[0]| {
      EndStartsInward(layout, x + 1);
      assert |layout[1]| == |layout[0]| && |layout[|layout| - 1]| == |layout[0]| && |layout[|layout| - 2]| == |layout[0]|;
    }
  }

  /** Every edge start of a framed layout looks inward, and there are two per inner row and column. */
  lemma EdgeStartsInward(layout: Layout)
    requires Framed(layout)
    ensures |EdgeStarts(layout)| == 2 * (|layout| - 2) + 2 * (|layout[0]| - 2)
    ensures forall p | p in EdgeStarts(layout) :: Inward(layout, p)
  {
    SideStartsInward(layout, 1);
    EndStartsInward(layout, 1);
  }

  /** The largest of `es`; `None` when `es` is empty (`maxOf` on an empty list) or holds a failure. */
  function MaxOf(es: seq<Option<int>>): (r: Option<int>)
    ensures r.None? <==> |es| == 0 || exists j | 0 <= j < |es| :: es[j].None?
    ensures r.Some? ==> exists j | 0 <= j < |es| :: es[j] == r
    ensures r.Some? ==> forall j | 0 <= j < |es| :: es[j].value <= r.value
  {
    if |es| == 0 || es[|es| - 1].None? then None
    else if |es| == 1 then es[0]
    else
      var m := MaxOf(es[..|es| - 1]);
      if m.None? then None else Some(Max(m.value, es[|es| - 1].value))
  }

  /** The energy of each of `starts`. */
  ghost function Energies(layout: Layout, starts: seq<Photon>): (r: seq<Option<int>>)
    ensures |r| == |starts| && forall j | 0 <= j < |starts| :: r[j] == Energized(layout, starts[j])
  {
    seq(|starts|, j requires 0 <= j < |starts| => Energized(layout, starts[j]))
  }

  /** `part1`: the energy of the photon entering the framed grid at its top-left corner, moving right. */
  method Part1(grid: Layout) returns (r: Option<int>)
    ensures r == Energized(Bordered(grid), Photon(0, 1, Right))
  {
    r := CountEnergized(Bordered(grid), Photon(0, 1, Right));
  }

  /** One more element: the running maximum of a prefix. */
  lemma MaxOfStep(es: seq<Option<int>>, i: nat)
    requires i < |es| && es[i].Some? && (i > 0 ==> MaxOf(es[..i]).Some?)
    ensures MaxOf(es[..i + 1]) == if i == 0 then es[i] else Some(Max(MaxOf(es[..i]).value, es[i].value))
  {
    assert es[..i + 1][..i] == es[..i];
  }

  /** `part2`: the best energy over all inward edge starts of the framed grid. */
  method Part2(grid: Layout) returns (r: Option<int>)
    ensures var layout := Bordered(grid); r == MaxOf(Energies(layout, EdgeStarts(layout)))
  {
    var layout := Bordered(grid);
    var starts := EdgeStarts(layout);
    ghost var es := Energies(layout, starts);
    var best: Option<int> := None;
    for i := 0 to |starts|
      invariant best == MaxOf(es[..i])
      invariant i > 0 ==> best.Some?
    {
      var e := CountEnergized(layout, starts[i]);
      assert e == es[i];
      if e.None? {
        assert MaxOf(es).None?;
        return None;
      }
      MaxOfStep(es, i);
      best := if i == 0 then e else Some(Max(best.value, e.value));
    }
    assert es[..|starts|] == es;
    return best;
  }

  /** On a rectangular grid part 1 never runs off the frame. */
  lemma Part1Defined(grid: Layout)
    requires Rectangular(grid, GridWidth(grid))
    ensures Energized(Bordered(grid), Photon(0, 1, Right)).Some?
  {
    BorderedCells(grid);
    FramedNeverFails(Bordered(grid), Photon(0, 1, Right));
  }

  /** On a non-empty rectangular grid part 2 has starts and none of them runs off the frame. */
  lemma Part2Defined(grid: Layout)
    requires Rectangular(grid, GridWidth(grid)) && |grid| > 0
    ensures var layout := Bordered(grid); MaxOf(Energies(layout, EdgeStarts(layout))).Some?
  {
    var layout := Bordered(grid);
    BorderedCells(grid);
    EdgeStartsInward(layout);
    forall j | 0 <= j < |EdgeStarts(layout)|
      ensures Energized(layout, EdgeStarts(layout)[j]).Some?
    {
      FramedNeverFails(layout, EdgeStarts(layout)[j]);
    }
  }

  /** A photon of the beam that runs off the layout makes the run fail. */
  lemma ReachedFailure(layout: Layout, start: Photon, q: Photon)
    requires Reaches(layout, start, q) && Next(layout, q).None?
    ensures Energized(layout, start) == None
  {
    if q != start {
      ReachesTile(layout, start, q);
    }
  }

  /** A closed set of photons that all descend from the start is the beam. */
  lemma ClosedIsBeam(layout: Layout, start: Photon, s: set<Photon>)
    requires Closed(layout, s) && start in s && IsTile(layout, start.x, start.y)
    requires forall q | q in s :: Reaches(layout, start, q)
    ensures Energized(layout, start) == Some(|TilesOf(s)| - 1)
  {
    BeamWithin(layout, s, start);
    forall q | q in s
      ensures q in Beam(layout, start)
    {
      if q != start {
        ReachesTile(layout, start, q);
      }
    }
    assert Beam(layout, start) == s;
  }

  /**
   * On the one-row grid "..|" the frame as written is three cells wide: the
   * photon the splitter sends up looks past the end of the top frame row.
   */
  lemma WideGridFallsOff()
    ensures Energized(BorderedAsWritten(["..|"]), Photon(0, 1, Right)) == None
  {
    var layout := BorderedAsWritten(["..|"]);
    var start, up := Photon(0, 1, Right), Photon(3, 1, Up);
    var ps := [start, Photon(1, 1, Right), Photon(2, 1, Right), up];
    assert Walk(layout, start, ps, up) by {
      assert layout[1] == ['x'] + "..|" + ['x'] == "x..|x";
      assert Next(layout, ps[0]).value[0] == ps[1];
      assert Next(layout, ps[1]).value[0] == ps[2];
      assert Next(layout, ps[2]).value[1] == up;
    }
    assert Next(layout, up).None? by {
      assert |layout[0]| == 3;
    }
    ReachedFailure(layout, start, up);
  }

  /** With the intended frame the same grid energises its three cells. */
  lemma WideGridFramed()
    ensures Energized(Bordered(["..|"]), Photon(0, 1, Right)) == Some(3)
  {
    var layout := Bordered(["..|"]);
    var p0, p1, p2 := Photon(0, 1, Right), Photon(1, 1, Right), Photon(2, 1, Right);
    var down, up := Photon(3, 1, Down), Photon(3, 1, Up);
    var s := {p0, p1, p2, down, up};
    WideGridSteps(layout, s);
    ReachesSelf(layout, p0);
    ReachesHop(layout, p0, p0, p1);
    ReachesHop(layout, p0, p1, p2);
    ReachesHop(layout, p0, p2, down);
    ReachesHop(layout, p0, p2, up);
    ClosedIsBeam(layout, p0, s);
    WideGridTiles(s);
  }

  lemma WideGridSteps(layout: Layout, s: set<Photon>)
    requires layout == Bordered(["..|"])
    requires s == {Photon(0, 1, Right), Photon(1, 1, Right), Photon(2, 1, Right), Photon(3, 1, Down), Photon(3, 1, Up)}
    ensures Hop(layout, Photon(0, 1, Right), Photon(1, 1, Right)) && Hop(layout, Photon(1, 1, Right), Photon(2, 1, Right))
    ensures Hop(layout, Photon(2, 1, Right), Photon(3, 1, Down)) && Hop(layout, Photon(2, 1, Right), Photon(3, 1, Up))
    ensures Closed(layout, s)
  {
    assert layout[1] == ['x'] + "..|" + ['x'] == "x..|x";
    assert layout[0][3] == 'x' && layout[2][3] == 'x';
    assert Next(layout, Photon(0, 1, Right)).value == [Photon(1, 1, Right)];
    assert Next(layout, Photon(1, 1, Right)).value == [Photon(2, 1, Right)];
    assert Next(layout, Photon(2, 1, Right)).value == [Photon(3, 1, Down), Photon(3, 1, Up)];
    assert Next(layout, Photon(3, 1, Down)).value == [] && Next(layout, Photon(3, 1, Up)).value == [];
  }

  lemma WideGridTiles(s: set<Photon>)
    requires s == {Photon(0, 1, Right), Photon(1, 1, Right), Photon(2, 1, Right), Photon(3, 1, Down), Photon(3, 1, Up)}
    ensures |TilesOf(s)| == 4
  {
    var t := {Tile(0, 1), Tile(1, 1), Tile(2, 1), Tile(3, 1)};
    forall u | u in TilesOf(s)
      ensures u in t
    {
    }
    forall u | u in t
      ensures u in TilesOf(s)
    {
      assert Photon(u.x, 1, if u.x == 3 then Up else Right) in s;
    }
    assert TilesOf(s) == t;
  }
}
