/**
 * Day 21 ("Step Counter"): the garden plots an elf can stand on after
 * exactly n steps, each step going to an orthogonally adjacent plot.
 */
module Day21 {
  import opened Common

  datatype Pt = Pt(x: int, y: int)

  type Garden = seq<seq<char>>

  predicate InRange(m: Garden, x: int, y: int)
  {
    0 <= y < |m| && 0 <= x < |m[y]|
  }

  /** A garden plot, the only kind of cell a step may enter. */
  predicate Plot(m: Garden, p: Pt)
  {
    InRange(m, p.x, p.y) && m[p.y][p.x] == '.'
  }

  predicate Adjacent(p: Pt, q: Pt)
  {
    q == Pt(p.x - 1, p.y) || q == Pt(p.x + 1, p.y) || q == Pt(p.x, p.y - 1) || q == Pt(p.x, p.y + 1)
  }

  /** The four cells `neighbors` looks at, in its order: west, east, north, south. */
  function Around(p: Pt): (r: seq<Pt>)
    ensures forall q :: q in r <==> Adjacent(p, q)
  {
    [Pt(p.x - 1, p.y), Pt(p.x + 1, p.y), Pt(p.x, p.y - 1), Pt(p.x, p.y + 1)]
  }

  /** The cells of `cs` that are plots, in order. */
  function PlotsAmong(m: Garden, cs: seq<Pt>): (r: seq<Pt>)
    requires forall c | c in cs :: InRange(m, c.x, c.y)
  {
    if cs == [] then []
    else
      var c := cs[0];
      assert c in cs && InRange(m, c.x, c.y);
      (if m[c.y][c.x] == '.' then [c] else []) + PlotsAmong(m, cs[1..])
  }

  /** Filtering keeps exactly the plots, each as often as in `cs`. */
  lemma {:induction false} PlotsAmongKeeps(m: Garden, cs: seq<Pt>)
    requires forall c | c in cs :: InRange(m, c.x, c.y)
    ensures |PlotsAmong(m, cs)| <= |cs|
    ensures NoDuplicates(cs) ==> NoDuplicates(PlotsAmong(m, cs))
    ensures forall q :: q in PlotsAmong(m, cs) <==> q in cs && Plot(m, q)
  {
    if cs != [] {
      PlotsAmongKeeps(m, cs[1..]);
      if NoDuplicates(cs) {
        assert NoDuplicates(cs[1..]) by {
          forall i, j | 0 <= i < j < |cs| - 1
            ensures cs[1..][i] != cs[1..][j]
          {
            assert cs[1..][i] == cs[i + 1] && cs[1..][j] == cs[j + 1];
          }
        }
        assert cs[0] !in cs[1..] by {
          forall j | 0 <= j < |cs| - 1
            ensures cs[1..][j] != cs[0]
          {
            assert cs[1..][j] == cs[j + 1];
          }
        }
        assert cs[0] in cs;
        var head := if m[cs[0].y][cs[0].x] == '.' then [cs[0]] else [];
        NoDuplicatesAppend(head, PlotsAmong(m, cs[1..]));
      }
    }
  }

  /** All four cells around `p` can be read. */
  predicate Surrounded(m: Garden, p: Pt)
  {
    InRange(m, p.x - 1, p.y) && InRange(m, p.x + 1, p.y) && InRange(m, p.x, p.y - 1) && InRange(m, p.x, p.y + 1)
  }

  /**
   * `neighbors`: the adjacent plots, west, east, north, south. The four cells
   * are read unguarded, so a cell on the map's edge fails on an index (`None`).
   */
  function Neighbours(m: Garden, p: Pt): (r: Option<seq<Pt>>)
    ensures r.None? <==> !Surrounded(m, p)
  {
    if !Surrounded(m, p) then None else Some(PlotsAmong(m, Around(p)))
  }

  /** `neighbors` yields at most four distinct positions: exactly the adjacent plots. */
  lemma NeighboursAdjacent(m: Garden, p: Pt)
    requires Surrounded(m, p)
    ensures |Neighbours(m, p).value| <= 4 && NoDuplicates(Neighbours(m, p).value)
    ensures forall q :: q in Neighbours(m, p).value <==> Adjacent(p, q) && Plot(m, q)
  {
    PlotsAmongKeeps(m, Around(p));
  }

  /** `flatMap(neighbors)`: the neighbours of every position in turn, failing with the first that fails. */
  function FlatNeighbours(m: Garden, pts: seq<Pt>): (r: Option<seq<Pt>>)
    ensures r.None? <==> exists p | p in pts :: !Surrounded(m, p)
  {
    if pts == [] then Some([])
    else
      match Neighbours(m, pts[0])
      case None => None
      case Some(ns) =>
        match FlatNeighbours(m, pts[1..])
        case None => None
        case Some(rest) => Some(ns + rest)
  }

  /** What `flatMap(neighbors)` collects: the neighbours of some position of the list. */
  lemma {:induction false} FlatNeighboursUnion(m: Garden, pts: seq<Pt>, q: Pt)
    requires FlatNeighbours(m, pts).Some?
    ensures q in FlatNeighbours(m, pts).value <==> exists p | p in pts :: q in Neighbours(m, p).value
  {
    if pts != [] {
      FlatNeighboursUnion(m, pts[1..], q);
      assert forall p | p in pts :: p == pts[0] || p in pts[1..];
    }
  }

  /** One step of the fold: `flatMap(neighbors).toSet()`, in order of first appearance. */
  function Step(m: Garden, pts: seq<Pt>): (r: Option<seq<Pt>>)
    ensures r.None? <==> exists p | p in pts :: !Surrounded(m, p)
    ensures r.Some? ==> NoDuplicates(r.value)
  {
    match FlatNeighbours(m, pts)
    case None => None
    case Some(all) => Some(Distinct(all))
  }

  /** A step leads from the positions to exactly the plots next to one of them. */
  lemma StepUnion(m: Garden, pts: seq<Pt>, q: Pt)
    requires Step(m, pts).Some?
    ensures q in Step(m, pts).value <==> Plot(m, q) && exists p | p in pts :: Adjacent(p, q)
  {
    FlatNeighboursUnion(m, pts, q);
    if q in Step(m, pts).value {
      var p :| p in pts && q in Neighbours(m, p).value;
      NeighboursAdjacent(m, p);
    }
    if Plot(m, q) && exists p | p in pts :: Adjacent(p, q) {
      var p :| p in pts && Adjacent(p, q);
      NeighboursAdjacent(m, p);
      assert q in Neighbours(m, p).value;
    }
  }

  /** The positions after `n` steps from `start` (the fold of `aimlesslyRoamAround`), in set order. */
  function Roam(m: Garden, start: Pt, n: nat): (r: Option<seq<Pt>>)
    ensures r.Some? ==> NoDuplicates(r.value)
  {
    if n == 0 then Some([start])
    else
      match Roam(m, start, n - 1)
      case None => None
      case Some(pts) => Step(m, pts)
  }

  /** `aimlesslyRoamAround`: the number of positions after `n` steps. */
  function RoamCount(m: Garden, start: Pt, n: nat): (r: Option<nat>)
    ensures r.None? <==> Roam(m, start, n).None?
    ensures r.Some? ==> r.value == |Roam(m, start, n).value|
  {
    match Roam(m, start, n)
    case None => None
    case Some(pts) => Some(|pts|)
  }

  /** With no steps to take the elf stays where it is. */
  lemma RoamZero(m: Garden, start: Pt)
    ensures RoamCount(m, start, 0) == Some(1)
  {
  }

  /** A walk: each position is next to the one before and, after the first, a plot. */
  ghost predicate Walk(m: Garden, w: seq<Pt>)
  {
    forall i | 0 < i < |w| :: Adjacent(w[i - 1], w[i]) && Plot(m, w[i])
  }

  /** `q` is the end of a walk of exactly `k` steps from `start`. */
  ghost predicate ReachableIn(m: Garden, start: Pt, k: nat, q: Pt)
  {
    exists w :: |w| == k + 1 && w[0] == start && w[k] == q && Walk(m, w)
  }

  lemma WalkExtend(m: Garden, w: seq<Pt>, q: Pt)
    requires |w| > 0 && Walk(m, w) && Adjacent(w[|w| - 1], q) && Plot(m, q)
    ensures Walk(m, w + [q])
  {
    var v := w + [q];
    forall i | 0 < i < |v|
      ensures Adjacent(v[i - 1], v[i]) && Plot(m, v[i])
    {
      if i < |w| {
        assert v[i - 1] == w[i - 1] && v[i] == w[i];
      }
    }
  }

  /** One step of the fold, seen from a position it produces or may produce. */
  lemma RoamStep(m: Garden, start: Pt, k: nat, q: Pt)
    requires k > 0 && Roam(m, start, k).Some?
    ensures Roam(m, start, k - 1).Some?
    ensures q in Roam(m, start, k).value <==> Plot(m, q) && exists p | p in Roam(m, start, k - 1).value :: Adjacent(p, q)
  {
    StepUnion(m, Roam(m, start, k - 1).value, q);
  }

  /** A position after `k > 0` steps has a neighbouring position after `k - 1` steps. */
  lemma RoamPredecessor(m: Garden, start: Pt, k: nat, q: Pt) returns (p: Pt)
    requires k > 0 && Roam(m, start, k).Some? && q in Roam(m, start, k).value
    ensures Roam(m, start, k - 1).Some? && p in Roam(m, start, k - 1).value && Adjacent(p, q) && Plot(m, q)
  {
    RoamStep(m, start, k, q);
    p :| p in Roam(m, start, k - 1).value && Adjacent(p, q);
  }

  /** A walk of `k - 1` steps followed by one more step. */
  lemma ReachExtend(m: Garden, start: Pt, k: nat, p: Pt, q: Pt)
    requires k > 0 && ReachableIn(m, start, k - 1, p) && Adjacent(p, q) && Plot(m, q)
    ensures ReachableIn(m, start, k, q)
  {
    var w :| |w| == k && w[0] == start && w[k - 1] == p && Walk(m, w);
    WalkExtend(m, w, q);
    var v := w + [q];
    assert |v| == k + 1 && v[0] == start && v[k] == q && Walk(m, v);
  }

  /** The last step of a walk of `k > 0` steps. */
  lemma ReachPredecessor(m: Garden, start: Pt, k: nat, q: Pt) returns (p: Pt)
    requires k > 0 && ReachableIn(m, start, k, q)
    ensures ReachableIn(m, start, k - 1, p) && Adjacent(p, q) && Plot(m, q)
  {
    var w :| |w| == k + 1 && w[0] == start && w[k] == q && Walk(m, w);
    p := w[k - 1];
    var v := w[..k];
    assert Walk(m, v) by {
      forall i | 0 < i < |v|
        ensures Adjacent(v[i - 1], v[i]) && Plot(m, v[i])
      {
        assert v[i - 1] == w[i - 1] && v[i] == w[i];
      }
    }
    assert |v| == k && v[0] == start && v[k - 1] == p;
  }

  /** Every position after `k` steps ends a `k`-step walk. */
  lemma {:induction false} RoamSound(m: Garden, start: Pt, k: nat, q: Pt)
    requires Roam(m, start, k).Some? && q in Roam(m, start, k).value
    ensures ReachableIn(m, start, k, q)
  {
    if k == 0 {
      assert Walk(m, [start]);
      assert [start][0] == start;
    } else {
      var p := RoamPredecessor(m, start, k, q);
      RoamSound(m, start, k - 1, p);
      ReachExtend(m, start, k, p, q);
    }
  }

  /** The end of every `k`-step walk is among the positions after `k` steps. */
  lemma {:induction false} RoamComplete(m: Garden, start: Pt, k: nat, q: Pt)
    requires Roam(m, start, k).Some? && ReachableIn(m, start, k, q)
    ensures q in Roam(m, start, k).value
  {
    if k > 0 {
      var p := ReachPredecessor(m, start, k, q);
      RoamStep(m, start, k, q);
      RoamComplete(m, start, k - 1, p);
    }
  }

  /** The positions after `k` steps are exactly the ends of `k`-step walks from the start. */
  lemma RoamReaches(m: Garden, start: Pt, k: nat)
    requires Roam(m, start, k).Some?
    ensures forall q :: q in Roam(m, start, k).value <==> ReachableIn(m, start, k, q)
  {
    forall q
      ensures q in Roam(m, start, k).value <==> ReachableIn(m, start, k, q)
    {
      if q in Roam(m, start, k).value {
        RoamSound(m, start, k, q);
      }
      if ReachableIn(m, start, k, q) {
        RoamComplete(m, start, k, q);
      }
    }
  }

  /** Going one step back and forth: a plot reached in `k` steps is reached again in `k + 2`. */
  lemma BackAndForth(m: Garden, start: Pt, k: nat, q: Pt)
    requires Plot(m, start) && ReachableIn(m, start, k, q) && k >= 1
    ensures ReachableIn(m, start, k + 2, q)
  {
    var w :| |w| == k + 1 && w[0] == start && w[k] == q && Walk(m, w);
    var p := w[k - 1];
    assert Adjacent(p, q);
    assert Adjacent(q, p) by {
      if q == Pt(p.x - 1, p.y) {
        assert p == Pt(q.x + 1, q.y);
      } else if q == Pt(p.x + 1, p.y) {
        assert p == Pt(q.x - 1, q.y);
      } else if q == Pt(p.x, p.y - 1) {
        assert p == Pt(q.x, q.y + 1);
      } else {
        assert p == Pt(q.x, q.y - 1);
      }
    }
    assert Plot(m, p) by {
      if k - 1 > 0 {
        assert Adjacent(w[k - 2], w[k - 1]) && Plot(m, w[k - 1]);
      }
    }
    WalkExtend(m, w, p);
    WalkExtend(m, w + [p], q);
    var v := w + [p] + [q];
    assert v[0] == start && v[k + 2] == q;
  }

  /** The frame character `bordered` puts around the map. */
  const Rock: char := '#'

  /** Width of a map, taken from its first row. */
  function GridWidth(grid: Garden): nat
  {
    if |grid| == 0 then 0 else |grid[0]|
  }

  /** `bordered('#')`: the map inside a one-cell frame of rocks. */
  function Bordered(grid: Garden): (r: Garden)
    ensures |r| == |grid| + 2
  {
    var extra := seq(GridWidth(grid) + 2, _ => Rock);
    [extra] + seq(|grid|, i requires 0 <= i < |grid| => [Rock] + grid[i] + [Rock]) + [extra]
  }

  predicate Rectangular(grid: Garden)
  {
    forall y | 0 <= y < |grid| :: |grid[y]| == GridWidth(grid)
  }

  /** A cell strictly inside the frame. */
  predicate Interior(grid: Garden, p: Pt)
  {
    1 <= p.y <= |grid| && 1 <= p.x <= GridWidth(grid)
  }

  /** The frame keeps the map's cells, shifted one right and one down. */
  lemma BorderedCells(grid: Garden)
    ensures forall y | 0 <= y < |grid| :: |Bordered(grid)[y + 1]| == |grid[y]| + 2
    ensures forall y, x | 0 <= y < |grid| && 0 <= x < |grid[y]| :: Bordered(grid)[y + 1][x + 1] == grid[y][x]
  {
    var r := Bordered(grid);
    forall y | 0 <= y < |grid|
      ensures |r[y + 1]| == |grid[y]| + 2
    {
      assert r[y + 1] == [Rock] + grid[y] + [Rock];
    }
    forall y, x | 0 <= y < |grid| && 0 <= x < |grid[y]|
      ensures r[y + 1][x + 1] == grid[y][x]
    {
      assert r[y + 1] == [Rock] + grid[y] + [Rock];
    }
  }

  /** One cell of the framed map. */
  lemma BorderedCell(grid: Garden, y: int, x: int)
    requires 0 <= y < |grid| && 0 <= x < |grid[y]|
    ensures |Bordered(grid)[y + 1]| == |grid[y]| + 2 && Bordered(grid)[y + 1][x + 1] == grid[y][x]
  {
    assert Bordered(grid)[y + 1] == [Rock] + grid[y] + [Rock];
  }

  /** Every plot of a framed rectangular map lies inside the frame. */
  lemma PlotInside(grid: Garden, p: Pt)
    requires Rectangular(grid) && Plot(Bordered(grid), p)
    ensures Interior(grid, p)
  {
    var r := Bordered(grid);
    if 1 <= p.y <= |grid| {
      assert r[p.y] == [Rock] + grid[p.y - 1] + [Rock];
    }
  }

  /** A cell inside the frame of a rectangular map can read all four cells around it. */
  lemma InsideSurrounded(grid: Garden, p: Pt)
    requires Rectangular(grid) && Interior(grid, p)
    ensures Surrounded(Bordered(grid), p)
  {
    var r := Bordered(grid);
    assert r[p.y] == [Rock] + grid[p.y - 1] + [Rock];
    if p.y - 1 >= 1 {
      assert r[p.y - 1] == [Rock] + grid[p.y - 2] + [Rock];
    }
    if p.y + 1 <= |grid| {
      assert r[p.y + 1] == [Rock] + grid[p.y] + [Rock];
    }
  }

  /** From positions inside the frame a step succeeds and stays inside. */
  lemma FramedStep(grid: Garden, pts: seq<Pt>)
    requires Rectangular(grid) && forall p | p in pts :: Interior(grid, p)
    ensures Step(Bordered(grid), pts).Some?
    ensures forall q | q in Step(Bordered(grid), pts).value :: Interior(grid, q)
  {
    forall p | p in pts
      ensures Surrounded(Bordered(grid), p)
    {
      InsideSurrounded(grid, p);
    }
    forall q | q in Step(Bordered(grid), pts).value
      ensures Interior(grid, q)
    {
      StepUnion(Bordered(grid), pts, q);
      PlotInside(grid, q);
    }
  }

  /** Inside a rock frame the roaming never leaves the map, so it never fails. */
  lemma {:induction false} FramedRoamDefined(grid: Garden, start: Pt, n: nat)
    requires Rectangular(grid) && Interior(grid, start)
    ensures Roam(Bordered(grid), start, n).Some?
    ensures forall p | p in Roam(Bordered(grid), start, n).value :: Interior(grid, p)
  {
    if n > 0 {
      FramedRoamDefined(grid, start, n - 1);
      FramedStep(grid, Roam(Bordered(grid), start, n - 1).value);
    }
  }

  /** The start `part1` keeps when the map has no 'S' is a corner: any step fails on an index. */
  lemma CornerStartFails(m: Garden, n: nat)
    requires n >= 1
    ensures Roam(m, Pt(0, 0), n) == None
  {
    if n > 1 {
      CornerStartFails(m, n - 1);
    } else {
      assert !Surrounded(m, Pt(0, 0));
    }
  }

  /**
   * The start `part1` finds: the first 'S' of the LAST row holding one,
   * shifted by one for the frame; (0, 0) when there is none.
   */
  function StartOf(input: seq<string>): (r: Pt)
    ensures r.y == 0 ==> r == Pt(0, 0)
    ensures r.y > 0 ==> r.y <= |input| && 1 <= r.x <= |input[r.y - 1]| && input[r.y - 1][r.x - 1] == 'S'
  {
    if input == [] then Pt(0, 0)
    else if 'S' in input[|input| - 1] then Pt(FirstIndex(input[|input| - 1], 'S') + 1, |input|)
    else StartOf(input[..|input| - 1])
  }

  /** Where `StartOf` points: at an 'S' with no 'S' before it in its row and none in a later row. */
  lemma {:induction false} StartOfLocates(input: seq<string>)
    ensures (forall y | 0 <= y < |input| :: 'S' !in input[y]) ==> StartOf(input) == Pt(0, 0)
    ensures (exists y | 0 <= y < |input| :: 'S' in input[y]) ==>
              var s := StartOf(input);
              && 1 <= s.y <= |input| && 1 <= s.x <= |input[s.y - 1]|
              && input[s.y - 1][s.x - 1] == 'S' && 'S' !in input[s.y - 1][..s.x - 1]
              && forall y | s.y <= y < |input| :: 'S' !in input[y]
  {
    if input != [] && 'S' !in input[|input| - 1] {
      var init := input[..|input| - 1];
      StartOfLocates(init);
      assert forall y | 0 <= y < |init| :: init[y] == input[y];
    }
  }

  /** `part1`'s `forEachIndexed` loop over the rows, reassigning the start on every row holding an 'S'. */
  method FindStart(input: seq<string>) returns (start: Pt)
    ensures start == StartOf(input)
  {
    start := Pt(0, 0);
    for row := 0 to |input|
      invariant start == StartOf(input[..row])
    {
      assert input[..row + 1][..row] == input[..row];
      var idx := FirstIndex(input[row], 'S');
      if idx >= 0 {
        start := Pt(idx + 1, row + 1);
      }
    }
    assert input[..|input|] == input;
  }

  /** A row with 'S' replaced by a plot. */
  function Unmark(row: string): (r: string)
    ensures |r| == |row| && forall x | 0 <= x < |row| :: r[x] == if row[x] == 'S' then '.' else row[x]
  {
    seq(|row|, x requires 0 <= x < |row| => if row[x] == 'S' then '.' else row[x])
  }

  /** The map with 'S' replaced by a plot. */
  function WithoutStart(input: seq<string>): (r: Garden)
    ensures |r| == |input| && forall y | 0 <= y < |input| :: r[y] == Unmark(input[y])
  {
    seq(|input|, y requires 0 <= y < |input| => Unmark(input[y]))
  }

  /**
   * The framed garden `part1` roams: two rows taller and two cells wider than the map, with every
   * cell of the map one row down and one column right, its 'S' made a plot.
   */
  function GardenOf(input: seq<string>): (r: Garden)
    ensures |r| == |input| + 2
    ensures forall y | 0 <= y < |input| :: |r[y + 1]| == |input[y]| + 2
    ensures forall y, x | 0 <= y < |input| && 0 <= x < |input[y]| ::
              r[y + 1][x + 1] == if input[y][x] == 'S' then '.' else input[y][x]
  {
    BorderedCells(WithoutStart(input));
    Bordered(WithoutStart(input))
  }

  /** `part1`: the number of plots reachable in exactly `numSteps` steps (none taken when it is not positive). */
  method Part1(input: seq<string>, numSteps: int) returns (r: Option<nat>)
    ensures r == RoamCount(GardenOf(input), StartOf(input), if numSteps <= 0 then 0 else numSteps)
  {
    var start := FindStart(input);
    var garden := Bordered(WithoutStart(input));
    r := RoamCount(garden, start, if numSteps <= 0 then 0 else numSteps);
  }

  /** The start `part1` finds on a map holding an 'S' is one past that 'S' in both coordinates. */
  lemma StartOfCell(input: seq<string>)
    requires exists y | 0 <= y < |input| :: 'S' in input[y]
    ensures var s := StartOf(input); 1 <= s.y <= |input| && 1 <= s.x <= |input[s.y - 1]| && input[s.y - 1][s.x - 1] == 'S'
  {
    StartOfLocates(input);
  }

  /** The start `part1` finds on a map holding an 'S' is a plot of the garden. */
  lemma StartIsPlot(input: seq<string>)
    requires exists y | 0 <= y < |input| :: 'S' in input[y]
    ensures 1 <= StartOf(input).y <= |input| && 1 <= StartOf(input).x <= |input[StartOf(input).y - 1]|
    ensures Plot(GardenOf(input), StartOf(input))
  {
    var s := StartOf(input);
    StartOfCell(input);
    var grid := WithoutStart(input);
    assert grid[s.y - 1] == Unmark(input[s.y - 1]);
    BorderedCell(grid, s.y - 1, s.x - 1);
  }

  /** Replacing the start keeps the map rectangular. */
  lemma WithoutStartRectangular(input: seq<string>)
    requires Rectangular(input)
    ensures Rectangular(WithoutStart(input)) && GridWidth(WithoutStart(input)) == GridWidth(input)
  {
  }

  /** On a rectangular map holding an 'S', `part1` succeeds: it starts on a plot inside the frame. */
  lemma Part1Defined(input: seq<string>, n: nat)
    requires Rectangular(input) && exists y | 0 <= y < |input| :: 'S' in input[y]
    ensures Plot(GardenOf(input), StartOf(input))
    ensures RoamCount(GardenOf(input), StartOf(input), n).Some?
  {
    var grid := WithoutStart(input);
    var s := StartOf(input);
    StartIsPlot(input);
    WithoutStartRectangular(input);
    assert |input[s.y - 1]| == GridWidth(input);
    FramedRoamDefined(grid, s, n);
  }
}
