/**
 * Day 11, Cosmic Expansion: an image of galaxies ('#') and empty space ('.'). Every column and
 * every row without a galaxy grows into `expansionFactor` copies of itself; the answer is the sum
 * of the Manhattan distances between all unordered pairs of galaxies in the expanded image.
 */
module Day11 {
  import opened Common
  import opened IterableEx

  /** A galaxy at column `x` and row `y`. */
  datatype Galaxy = Galaxy(x: int, y: int)

  /** `manhattanDistance`: the number of horizontal and vertical steps between two galaxies. */
  function ManhattanDistance(g: Galaxy, other: Galaxy): (d: int)
    ensures d >= 0
    ensures d == 0 <==> g == other
  {
    Abs(other.x - g.x) + Abs(other.y - g.y)
  }

  /** The distance does not depend on which galaxy one starts from. */
  lemma ManhattanSymmetric(g: Galaxy, other: Galaxy)
    ensures ManhattanDistance(g, other) == ManhattanDistance(other, g)
  {
  }

  /** The distance obeys the triangle inequality. */
  lemma ManhattanTriangle(a: Galaxy, b: Galaxy, c: Galaxy)
    ensures ManhattanDistance(a, c) <= ManhattanDistance(a, b) + ManhattanDistance(b, c)
  {
  }

  // ---------------------------------------------------------------------------------------
  // Expansion of a list of lines
  // ---------------------------------------------------------------------------------------

  /** `count` copies of `x`. */
  function Repeat<T>(x: T, count: nat): (r: seq<T>)
    ensures |r| == count && forall i | 0 <= i < count :: r[i] == x
  {
    if count == 0 then [] else [x] + Repeat(x, count - 1)
  }

  /**
   * `flatMap { if (flagged) filler else listOf(it) }`: each flagged element becomes `factor`
   * copies of `fill`, each other element stays as it is.
   */
  function ExpandSeq<T>(xs: seq<T>, flags: seq<bool>, factor: nat, fill: T): (r: seq<T>)
    requires |flags| == |xs|
    ensures |xs| == 0 ==> r == []
  {
    if xs == [] then []
    else (if flags[0] then Repeat(fill, factor) else [xs[0]]) + ExpandSeq(xs[1..], flags[1..], factor, fill)
  }

  /** Where the element at index `i` lands: one slot per unflagged and `factor` per flagged element before it. */
  function NewIndex(flags: seq<bool>, factor: nat, i: nat): (j: nat)
    requires i <= |flags|
    ensures factor >= 1 ==> j >= i
  {
    if i == 0 then 0 else NewIndex(flags, factor, i - 1) + (if flags[i - 1] then factor else 1)
  }

  /** The number of set flags. */
  function CountTrue(flags: seq<bool>): (n: nat)
    ensures n <= |flags|
  {
    if flags == [] then 0 else CountTrue(flags[..|flags| - 1]) + (if flags[|flags| - 1] then 1 else 0)
  }

  /** A kept element moves by `factor - 1` for every flagged element before it. */
  lemma {:induction false} NewIndexFormula(flags: seq<bool>, factor: nat, i: nat)
    requires i <= |flags|
    ensures NewIndex(flags, factor, i) == i + (factor - 1) * CountTrue(flags[..i])
  {
    if i > 0 {
      NewIndexFormula(flags, factor, i - 1);
      var prefix := flags[..i];
      assert prefix[..i - 1] == flags[..i - 1] && prefix[i - 1] == flags[i - 1];
      var n := CountTrue(flags[..i - 1]);
      var b := if flags[i - 1] then 1 else 0;
      assert CountTrue(prefix) == n + b;
      MulAddOne(factor - 1, n, b);
    }
  }

  lemma MulAddOne(a: int, n: int, b: int)
    ensures a * (n + b) == a * n + a * b
  {
  }

  /** The expansion is as long as the landing place of an element past the end. */
  lemma {:induction false} ExpandSeqLength<T>(xs: seq<T>, flags: seq<bool>, factor: nat, fill: T)
    requires |flags| == |xs|
    ensures |ExpandSeq(xs, flags, factor, fill)| == NewIndex(flags, factor, |xs|)
  {
    if xs != [] {
      ExpandSeqLength(xs[1..], flags[1..], factor, fill);
      NewIndexStep(flags, factor, |xs|);
    }
  }

  /** Peeling the first flag off shifts every later landing place by that element's width. */
  lemma {:induction false} NewIndexStep(flags: seq<bool>, factor: nat, i: nat)
    requires 1 <= i <= |flags|
    ensures NewIndex(flags, factor, i)
            == (if flags[0] then factor else 1) + NewIndex(flags[1..], factor, i - 1)
  {
    if i > 1 {
      NewIndexStep(flags, factor, i - 1);
      assert flags[1..][i - 2] == flags[i - 1];
    }
  }

  /** Every unflagged element lands at its `NewIndex`. */
  lemma {:induction false} ExpandSeqKeeps<T>(xs: seq<T>, flags: seq<bool>, factor: nat, fill: T, i: nat)
    requires |flags| == |xs| && i < |xs| && !flags[i]
    ensures 0 <= NewIndex(flags, factor, i) < |ExpandSeq(xs, flags, factor, fill)|
    ensures ExpandSeq(xs, flags, factor, fill)[NewIndex(flags, factor, i)] == xs[i]
  {
    var head := if flags[0] then Repeat(fill, factor) else [xs[0]];
    var tail := ExpandSeq(xs[1..], flags[1..], factor, fill);
    assert ExpandSeq(xs, flags, factor, fill) == head + tail;
    if i == 0 {
      assert flags[..0] == [];
    } else {
      NewIndexStep(flags, factor, i);
      ExpandSeqKeeps(xs[1..], flags[1..], factor, fill, i - 1);
    }
  }

  /** Everything in an expansion is a copy of `fill` or an unflagged element of the input. */
  lemma {:induction false} ExpandSeqOrigin<T>(xs: seq<T>, flags: seq<bool>, factor: nat, fill: T, j: nat)
    requires |flags| == |xs| && j < |ExpandSeq(xs, flags, factor, fill)|
    ensures ExpandSeq(xs, flags, factor, fill)[j] == fill
            || exists i | 0 <= i < |xs| :: !flags[i] && ExpandSeq(xs, flags, factor, fill)[j] == xs[i]
  {
    var head := if flags[0] then Repeat(fill, factor) else [xs[0]];
    var tail := ExpandSeq(xs[1..], flags[1..], factor, fill);
    var r := ExpandSeq(xs, flags, factor, fill);
    assert r == head + tail;
    if j < |head| {
      if !flags[0] {
        assert r[j] == xs[0];
      }
    } else {
      assert r[j] == tail[j - |head|];
      ExpandSeqOrigin(xs[1..], flags[1..], factor, fill, j - |head|);
      if r[j] != fill {
        var i :| 0 <= i < |xs[1..]| && !flags[1..][i] && tail[j - |head|] == xs[1..][i];
        assert !flags[i + 1] && r[j] == xs[i + 1];
      }
    }
  }

  /** Expansion distributes over concatenation. */
  lemma {:induction false} ExpandSeqAppend<T>(a: seq<T>, fa: seq<bool>, b: seq<T>, fb: seq<bool>, factor: nat, fill: T)
    requires |fa| == |a| && |fb| == |b|
    ensures ExpandSeq(a + b, fa + fb, factor, fill) == ExpandSeq(a, fa, factor, fill) + ExpandSeq(b, fb, factor, fill)
  {
    if a == [] {
      assert a + b == b && fa + fb == fb;
    } else {
      assert (a + b)[1..] == a[1..] + b && (fa + fb)[1..] == fa[1..] + fb;
      assert (a + b)[0] == a[0] && (fa + fb)[0] == fa[0];
      var head := if fa[0] then Repeat(fill, factor) else [a[0]];
      var restA, restB := ExpandSeq(a[1..], fa[1..], factor, fill), ExpandSeq(b, fb, factor, fill);
      ExpandSeqAppend(a[1..], fa[1..], b, fb, factor, fill);
      calc {
        ExpandSeq(a + b, fa + fb, factor, fill);
        head + ExpandSeq(a[1..] + b, fa[1..] + fb, factor, fill);
        head + (restA + restB);
        { ConcatAssociative(head, restA, restB); }
        (head + restA) + restB;
      }
    }
  }

  // ---------------------------------------------------------------------------------------
  // The image
  // ---------------------------------------------------------------------------------------

  /** `row.all { it == '.' }`. */
  predicate AllDots(line: seq<char>)
  {
    forall i | 0 <= i < |line| :: line[i] == '.'
  }

  /** Which lines of a list hold no galaxy. */
  function EmptyFlags(lines: seq<seq<char>>): (flags: seq<bool>)
    ensures |flags| == |lines| && forall i | 0 <= i < |lines| :: flags[i] == AllDots(lines[i])
  {
    if lines == [] then [] else [AllDots(lines[0])] + EmptyFlags(lines[1..])
  }

  /** One `flatMap` stage of `expand`: every all-'.' line becomes `factor` lines of `width` dots. */
  function ExpandLines(lines: seq<seq<char>>, factor: nat, width: nat): (r: seq<seq<char>>)
  {
    ExpandSeq(lines, EmptyFlags(lines), factor, Repeat('.', width))
  }

  /**
   * `Universe.expand`: expand the columns (as rows of the transposed image), transpose back and
   * expand the rows. Both stages insert lines of as many dots as the image has rows.
   */
  function Expand(universe: seq<seq<char>>, factor: nat): seq<seq<char>>
    requires RowsCoverFirst(universe)
  {
    ExpandLines(ExpandColumns(universe, factor), factor, |universe|)
  }

  /** The first stage of `expand`: the image with its empty columns expanded. */
  function ExpandColumns(universe: seq<seq<char>>, factor: nat): seq<seq<char>>
    requires RowsCoverFirst(universe)
  {
    var columns := ExpandLines(Transpose(universe), factor, |universe|);
    ColumnsCoverFirst(universe, factor);
    Transpose(columns)
  }

  /**
   * Each row of the expanded image is either an inserted row of dots, as long as the original
   * image is tall (so it matches the width only for a square image), or a non-empty row of the
   * column-expanded image.
   */
  lemma ExpandedRowsAre(universe: seq<seq<char>>, factor: nat, j: nat)
    requires RowsCoverFirst(universe) && j < |Expand(universe, factor)|
    ensures var c := ExpandColumns(universe, factor);
            Expand(universe, factor)[j] == Repeat('.', |universe|)
            || exists y | 0 <= y < |c| :: !AllDots(c[y]) && Expand(universe, factor)[j] == c[y]
  {
    var c := ExpandColumns(universe, factor);
    ExpandSeqOrigin(c, EmptyFlags(c), factor, Repeat('.', |universe|), j);
  }

  /** Every expanded column is as long as the image is tall, so it can be transposed back. */
  lemma ColumnsCoverFirst(universe: seq<seq<char>>, factor: nat)
    requires RowsCoverFirst(universe)
    ensures var columns := ExpandLines(Transpose(universe), factor, |universe|);
            forall i | 0 <= i < |columns| :: |columns[i]| == |universe|
    ensures RowsCoverFirst(ExpandLines(Transpose(universe), factor, |universe|))
  {
    var t := Transpose(universe);
    var columns := ExpandLines(t, factor, |universe|);
    forall i | 0 <= i < |columns| ensures |columns[i]| == |universe| {
      ExpandSeqOrigin(t, EmptyFlags(t), factor, Repeat('.', |universe|), i);
      if columns[i] != Repeat('.', |universe|) {
        var k :| 0 <= k < |t| && !EmptyFlags(t)[k] && columns[i] == t[k];
      }
    }
  }

  // ---------------------------------------------------------------------------------------
  // Galaxies and where expansion moves them
  // ---------------------------------------------------------------------------------------

  /** The columns holding a '#' in `row`, numbered from `x0`, left to right. */
  function Positions(row: seq<char>, x0: int): (ps: seq<int>)
    ensures forall k | 0 <= k < |ps| :: x0 <= ps[k] < x0 + |row|
  {
    if row == [] then []
    else (if row[0] == '#' then [x0] else []) + Positions(row[1..], x0 + 1)
  }

  /** The positions are exactly the '#' cells. */
  lemma {:induction false} PositionsMember(row: seq<char>, x0: int, x: int)
    ensures x in Positions(row, x0) <==> x0 <= x < x0 + |row| && row[x - x0] == '#'
  {
    if row != [] {
      PositionsMember(row[1..], x0 + 1, x);
      var first := if row[0] == '#' then [x0] else [];
      assert Positions(row, x0) == first + Positions(row[1..], x0 + 1);
      if x0 + 1 <= x < x0 + |row| {
        assert row[x - x0] == row[1..][x - (x0 + 1)];
      }
    }
  }

  /** The galaxies of one row, at row `y`. */
  function RowGalaxies(xs: seq<int>, y: int): (gs: seq<Galaxy>)
    ensures |gs| == |xs| && forall k | 0 <= k < |xs| :: gs[k] == Galaxy(xs[k], y)
  {
    if xs == [] then [] else [Galaxy(xs[0], y)] + RowGalaxies(xs[1..], y)
  }

  /** `flatMapIndexed` over the rows, numbering them from `y0`: the galaxies in reading order. */
  function GalaxiesFrom(grid: seq<seq<char>>, y0: int): seq<Galaxy>
  {
    if grid == [] then [] else RowGalaxies(Positions(grid[0], 0), y0) + GalaxiesFrom(grid[1..], y0 + 1)
  }

  /** The galaxies of one row are exactly its '#' cells. */
  lemma RowGalaxiesMembers(row: seq<char>, y: int)
    ensures forall g :: g in RowGalaxies(Positions(row, 0), y) <==> g.y == y && 0 <= g.x < |row| && row[g.x] == '#'
  {
    var ps := Positions(row, 0);
    var here := RowGalaxies(ps, y);
    forall x ensures x in ps <==> 0 <= x < |row| && row[x] == '#' {
      PositionsMember(row, 0, x);
    }
    forall g: Galaxy | g in here ensures g.x in ps && g.y == y {
      var k :| 0 <= k < |here| && here[k] == g;
    }
    forall g: Galaxy | g.y == y && g.x in ps ensures g in here {
      var k :| 0 <= k < |ps| && ps[k] == g.x;
      assert here[k] == g;
    }
  }

  /** The galaxies found are exactly the '#' cells of the rows, numbered from `y0`. */
  lemma {:induction false} GalaxyMember(grid: seq<seq<char>>, y0: int, g: Galaxy)
    ensures g in GalaxiesFrom(grid, y0) <==>
            y0 <= g.y < y0 + |grid| && 0 <= g.x < |grid[g.y - y0]| && grid[g.y - y0][g.x] == '#'
  {
    if grid != [] {
      RowGalaxiesMembers(grid[0], y0);
      GalaxyMember(grid[1..], y0 + 1, g);
      if y0 + 1 <= g.y < y0 + |grid| {
        assert grid[g.y - y0] == grid[1..][g.y - (y0 + 1)];
      }
    }
  }

  /** The galaxies of an image in reading order. */
  function Galaxies(grid: seq<seq<char>>): seq<Galaxy>
  {
    GalaxiesFrom(grid, 0)
  }

  /** The galaxies of an image are exactly its '#' cells. */
  lemma GalaxiesAreHashes(grid: seq<seq<char>>)
    ensures forall g :: g in Galaxies(grid) <==> 0 <= g.y < |grid| && 0 <= g.x < |grid[g.y]| && grid[g.y][g.x] == '#'
  {
    forall g ensures g in Galaxies(grid) <==> 0 <= g.y < |grid| && 0 <= g.x < |grid[g.y]| && grid[g.y][g.x] == '#' {
      GalaxyMember(grid, 0, g);
    }
  }

  /** `NewIndex` for any integer; positions outside the flags stay where they are. */
  function Landing(flags: seq<bool>, factor: nat, i: int): int
  {
    if 0 <= i <= |flags| then NewIndex(flags, factor, i) else i
  }

  /** Position `p`, counted from `x0`, moved to where the expansion of `flags` puts it, counted from `out0`. */
  function Shift(flags: seq<bool>, factor: nat, x0: int, out0: int): int -> int
  {
    p => out0 + Landing(flags, factor, p - x0)
  }

  /** `map`: `f` applied to each element, in order. */
  function MapSeq<A, B>(xs: seq<A>, f: A -> B): (r: seq<B>)
    ensures |r| == |xs| && forall k | 0 <= k < |xs| :: r[k] == f(xs[k])
  {
    if xs == [] then [] else [f(xs[0])] + MapSeq(xs[1..], f)
  }

  lemma MapSeqAppend<A, B>(a: seq<A>, b: seq<A>, f: A -> B)
    ensures MapSeq(a + b, f) == MapSeq(a, f) + MapSeq(b, f)
  {
    var l, r := MapSeq(a + b, f), MapSeq(a, f) + MapSeq(b, f);
    assert |l| == |r|;
    forall k | 0 <= k < |l| ensures l[k] == r[k] {
      if k < |a| {
        assert (a + b)[k] == a[k];
      } else {
        assert (a + b)[k] == b[k - |a|];
      }
    }
  }

  lemma {:induction false} PositionsAppend(a: seq<char>, b: seq<char>, x0: int)
    ensures Positions(a + b, x0) == Positions(a, x0) + Positions(b, x0 + |a|)
  {
    if a == [] {
      assert a + b == b;
    } else {
      assert (a + b)[0] == a[0] && (a + b)[1..] == a[1..] + b;
      var head := if a[0] == '#' then [x0] else [];
      PositionsAppend(a[1..], b, x0 + 1);
      calc {
        Positions(a + b, x0);
        head + Positions(a[1..] + b, x0 + 1);
        head + (Positions(a[1..], x0 + 1) + Positions(b, x0 + |a|));
        { ConcatAssociative(head, Positions(a[1..], x0 + 1), Positions(b, x0 + |a|)); }
        (head + Positions(a[1..], x0 + 1)) + Positions(b, x0 + |a|);
      }
    }
  }

  lemma {:induction false} PositionsOfDots(row: seq<char>, x0: int)
    requires AllDots(row)
    ensures Positions(row, x0) == []
  {
    if row != [] {
      PositionsOfDots(row[1..], x0 + 1);
    }
  }

  /** Landing places measured past the first element equal those measured before it. */
  lemma {:induction false} ShiftStep(ps: seq<int>, flags: seq<bool>, factor: nat, x0: int, out0: int, width: nat)
    requires |flags| >= 1 && width == if flags[0] then factor else 1
    requires forall k | 0 <= k < |ps| :: x0 + 1 <= ps[k] <= x0 + |flags|
    ensures MapSeq(ps, Shift(flags, factor, x0, out0)) == MapSeq(ps, Shift(flags[1..], factor, x0 + 1, out0 + width))
  {
    if ps != [] {
      var f, g := Shift(flags, factor, x0, out0), Shift(flags[1..], factor, x0 + 1, out0 + width);
      var i := ps[0] - x0;
      assert 1 <= i <= |flags|;
      NewIndexStep(flags, factor, i);
      assert Landing(flags, factor, i) == NewIndex(flags, factor, i);
      assert Landing(flags[1..], factor, i - 1) == NewIndex(flags[1..], factor, i - 1);
      assert f(ps[0]) == out0 + NewIndex(flags, factor, i);
      assert g(ps[0]) == out0 + width + NewIndex(flags[1..], factor, i - 1);
      ShiftStep(ps[1..], flags, factor, x0, out0, width);
    }
  }

  /** The first cell of a row, expanded, holds a galaxy exactly where its shifted column says. */
  lemma ExpandFirstCell(row: seq<char>, flags: seq<bool>, factor: nat, x0: int, out0: int)
    requires |row| == |flags| >= 1 && (flags[0] ==> row[0] == '.')
    ensures Positions(if flags[0] then Repeat('.', factor) else [row[0]], out0)
            == MapSeq(if row[0] == '#' then [x0] else [], Shift(flags, factor, x0, out0))
  {
    if flags[0] {
      PositionsOfDots(Repeat('.', factor), out0);
    } else if row[0] == '#' {
      var f := Shift(flags, factor, x0, out0);
      assert f(x0) == out0 + Landing(flags, factor, 0);
      assert NewIndex(flags, factor, 0) == 0;
      assert MapSeq([x0], f) == [f(x0)];
      assert Positions([row[0]], out0) == [out0] + Positions([], out0 + 1);
    }
  }

  /**
   * Expanding a row moves each galaxy column to its `NewIndex`: the '#' columns of the expanded
   * row are the shifted '#' columns of the original, in the same order.
   */
  lemma {:induction false} ExpandRowPositions(row: seq<char>, flags: seq<bool>, factor: nat, x0: int, out0: int)
    requires |row| == |flags| && forall i | 0 <= i < |row| && flags[i] :: row[i] == '.'
    ensures Positions(ExpandSeq(row, flags, factor, '.'), out0) == MapSeq(Positions(row, x0), Shift(flags, factor, x0, out0))
    decreases |row|, 1
  {
    if row != [] {
      var head := if flags[0] then Repeat('.', factor) else [row[0]];
      var width := if flags[0] then factor else 1;
      var rest := ExpandSeq(row[1..], flags[1..], factor, '.');
      var first := if row[0] == '#' then [x0] else [];
      var tailPs := Positions(row[1..], x0 + 1);
      var f := Shift(flags, factor, x0, out0);
      assert ExpandSeq(row, flags, factor, '.') == head + rest;
      assert Positions(row, x0) == first + tailPs;
      var ph, pr := Positions(head, out0), Positions(rest, out0 + width);
      PositionsAppend(head, rest, out0);
      assert Positions(head + rest, out0) == ph + pr;
      ExpandLaterCells(row, flags, factor, x0, out0, width);
      assert pr == MapSeq(tailPs, f);
      MapSeqAppend(first, tailPs, f);
      ExpandFirstCell(row, flags, factor, x0, out0);
    }
  }

  /** The cells after the first, expanded, land where the whole row's expansion puts them. */
  lemma {:induction false} ExpandLaterCells(row: seq<char>, flags: seq<bool>, factor: nat, x0: int, out0: int, width: nat)
    requires |row| == |flags| >= 1 && forall i | 0 <= i < |row| && flags[i] :: row[i] == '.'
    requires width == if flags[0] then factor else 1
    ensures Positions(ExpandSeq(row[1..], flags[1..], factor, '.'), out0 + width)
            == MapSeq(Positions(row[1..], x0 + 1), Shift(flags, factor, x0, out0))
    decreases |row|, 0
  {
    ExpandRowPositions(row[1..], flags[1..], factor, x0 + 1, out0 + width);
    ShiftStep(Positions(row[1..], x0 + 1), flags, factor, x0, out0, width);
  }

  // ---------------------------------------------------------------------------------------
  // Rows: the same argument one level up
  // ---------------------------------------------------------------------------------------

  /** A galaxy in row `y` (counted from `y0`) moved to the row the expansion of `flags` gives it. */
  function MoveRow(flags: seq<bool>, factor: nat, y0: int, out0: int): Galaxy -> Galaxy
  {
    (g: Galaxy) => Galaxy(g.x, out0 + Landing(flags, factor, g.y - y0))
  }

  lemma {:induction false} GalaxiesFromAppend(a: seq<seq<char>>, b: seq<seq<char>>, y0: int)
    ensures GalaxiesFrom(a + b, y0) == GalaxiesFrom(a, y0) + GalaxiesFrom(b, y0 + |a|)
  {
    if a == [] {
      assert a + b == b;
    } else {
      assert (a + b)[0] == a[0] && (a + b)[1..] == a[1..] + b;
      var here, rest := RowGalaxies(Positions(a[0], 0), y0), GalaxiesFrom(a[1..], y0 + 1);
      GalaxiesFromAppend(a[1..], b, y0 + 1);
      calc {
        GalaxiesFrom(a + b, y0);
        here + GalaxiesFrom(a[1..] + b, y0 + 1);
        here + (rest + GalaxiesFrom(b, y0 + |a|));
        { ConcatAssociative(here, rest, GalaxiesFrom(b, y0 + |a|)); }
        (here + rest) + GalaxiesFrom(b, y0 + |a|);
      }
    }
  }

  lemma {:induction false} GalaxiesOfEmptyRows(fill: seq<char>, count: nat, y0: int)
    requires AllDots(fill)
    ensures GalaxiesFrom(Repeat(fill, count), y0) == []
  {
    if count > 0 {
      PositionsOfDots(fill, 0);
      GalaxiesOfEmptyRows(fill, count - 1, y0 + 1);
      assert Repeat(fill, count)[1..] == Repeat(fill, count - 1);
    }
  }

  /** The galaxies found in rows past `y0` all lie in those rows. */
  lemma GalaxyRowsBounded(grid: seq<seq<char>>, y0: int)
    ensures forall k | 0 <= k < |GalaxiesFrom(grid, y0)| ::
              y0 <= GalaxiesFrom(grid, y0)[k].y < y0 + |grid|
  {
    var gs := GalaxiesFrom(grid, y0);
    forall k | 0 <= k < |gs| ensures y0 <= gs[k].y < y0 + |grid| {
      GalaxyMember(grid, y0, gs[k]);
    }
  }

  lemma {:induction false} MoveRowStep(gs: seq<Galaxy>, flags: seq<bool>, factor: nat, y0: int, out0: int, width: nat)
    requires |flags| >= 1 && width == if flags[0] then factor else 1
    requires forall k | 0 <= k < |gs| :: y0 + 1 <= gs[k].y <= y0 + |flags|
    ensures MapSeq(gs, MoveRow(flags, factor, y0, out0)) == MapSeq(gs, MoveRow(flags[1..], factor, y0 + 1, out0 + width))
  {
    if gs != [] {
      var f, g := MoveRow(flags, factor, y0, out0), MoveRow(flags[1..], factor, y0 + 1, out0 + width);
      var i := gs[0].y - y0;
      assert 1 <= i <= |flags|;
      NewIndexStep(flags, factor, i);
      assert Landing(flags, factor, i) == NewIndex(flags, factor, i);
      assert Landing(flags[1..], factor, i - 1) == NewIndex(flags[1..], factor, i - 1);
      assert f(gs[0]) == g(gs[0]);
      MoveRowStep(gs[1..], flags, factor, y0, out0, width);
    }
  }

  /** The galaxies of the first row, expanded, land in row `out0` when that row is kept. */
  lemma ExpandFirstRow(rows: seq<seq<char>>, flags: seq<bool>, factor: nat, fill: seq<char>, y0: int, out0: int)
    requires |rows| == |flags| >= 1 && (flags[0] ==> AllDots(rows[0])) && AllDots(fill)
    ensures GalaxiesFrom(if flags[0] then Repeat(fill, factor) else [rows[0]], out0)
            == MapSeq(RowGalaxies(Positions(rows[0], 0), y0), MoveRow(flags, factor, y0, out0))
  {
    var here := RowGalaxies(Positions(rows[0], 0), y0);
    var f := MoveRow(flags, factor, y0, out0);
    if flags[0] {
      GalaxiesOfEmptyRows(fill, factor, out0);
      PositionsOfDots(rows[0], 0);
    } else {
      assert NewIndex(flags, factor, 0) == 0;
      assert GalaxiesFrom([rows[0]], out0) == RowGalaxies(Positions(rows[0], 0), out0) + GalaxiesFrom([], out0 + 1);
      var l, r := MapSeq(here, f), RowGalaxies(Positions(rows[0], 0), out0);
      forall k | 0 <= k < |l| ensures l[k] == r[k] {
        assert f(here[k]) == r[k];
      }
    }
  }

  /**
   * Expanding the rows moves each galaxy to the row `NewIndex` gives it, keeping its column and
   * the reading order.
   */
  lemma {:induction false} ExpandRowsGalaxies(rows: seq<seq<char>>, flags: seq<bool>, factor: nat, fill: seq<char>, y0: int, out0: int)
    requires |rows| == |flags| && forall i | 0 <= i < |rows| && flags[i] :: AllDots(rows[i])
    requires AllDots(fill)
    ensures GalaxiesFrom(ExpandSeq(rows, flags, factor, fill), out0)
            == MapSeq(GalaxiesFrom(rows, y0), MoveRow(flags, factor, y0, out0))
    decreases |rows|, 1
  {
    if rows != [] {
      var head := if flags[0] then Repeat(fill, factor) else [rows[0]];
      var width := if flags[0] then factor else 1;
      var rest := ExpandSeq(rows[1..], flags[1..], factor, fill);
      var first := RowGalaxies(Positions(rows[0], 0), y0);
      var tailGs := GalaxiesFrom(rows[1..], y0 + 1);
      var f := MoveRow(flags, factor, y0, out0);
      assert ExpandSeq(rows, flags, factor, fill) == head + rest;
      assert GalaxiesFrom(rows, y0) == first + tailGs;
      var gh, gr := GalaxiesFrom(head, out0), GalaxiesFrom(rest, out0 + width);
      GalaxiesFromAppend(head, rest, out0);
      assert GalaxiesFrom(head + rest, out0) == gh + gr;
      ExpandLaterRows(rows, flags, factor, fill, y0, out0, width);
      assert gr == MapSeq(tailGs, f);
      MapSeqAppend(first, tailGs, f);
      ExpandFirstRow(rows, flags, factor, fill, y0, out0);
    }
  }

  /** The rows after the first, expanded, land where the whole list's expansion puts them. */
  lemma {:induction false} ExpandLaterRows(rows: seq<seq<char>>, flags: seq<bool>, factor: nat, fill: seq<char>, y0: int, out0: int, width: nat)
    requires |rows| == |flags| >= 1 && forall i | 0 <= i < |rows| && flags[i] :: AllDots(rows[i])
    requires AllDots(fill) && width == if flags[0] then factor else 1
    ensures GalaxiesFrom(ExpandSeq(rows[1..], flags[1..], factor, fill), out0 + width)
            == MapSeq(GalaxiesFrom(rows[1..], y0 + 1), MoveRow(flags, factor, y0, out0))
    decreases |rows|, 0
  {
    ExpandRowsGalaxies(rows[1..], flags[1..], factor, fill, y0 + 1, out0 + width);
    GalaxyRowsBounded(rows[1..], y0 + 1);
    MoveRowStep(GalaxiesFrom(rows[1..], y0 + 1), flags, factor, y0, out0, width);
  }

  // ---------------------------------------------------------------------------------------
  // Columns: expanding through the transposition
  // ---------------------------------------------------------------------------------------

  /** A galaxy moved to the column the expansion of `flags` gives it. */
  function MoveColumn(flags: seq<bool>, factor: nat): Galaxy -> Galaxy
  {
    (g: Galaxy) => Galaxy(Landing(flags, factor, g.x), g.y)
  }

  /** Moving the galaxies of one row sideways is moving their columns. */
  lemma MoveRowGalaxies(ps: seq<int>, y: int, flags: seq<bool>, factor: nat)
    ensures MapSeq(RowGalaxies(ps, y), MoveColumn(flags, factor)) == RowGalaxies(MapSeq(ps, Shift(flags, factor, 0, 0)), y)
  {
    var l, r := MapSeq(RowGalaxies(ps, y), MoveColumn(flags, factor)), RowGalaxies(MapSeq(ps, Shift(flags, factor, 0, 0)), y);
    forall k | 0 <= k < |ps| ensures l[k] == r[k] {
    }
  }

  /** The rows of a column-expanded image hold the galaxies of the original, moved sideways. */
  lemma {:induction false} ExpandColumnsGalaxies(expanded: seq<seq<char>>, rows: seq<seq<char>>, flags: seq<bool>, factor: nat, y0: int)
    requires RowsExpandedBy(expanded, rows, flags, factor)
    ensures GalaxiesFrom(expanded, y0) == MapSeq(GalaxiesFrom(rows, y0), MoveColumn(flags, factor))
  {
    if rows != [] {
      var f := MoveColumn(flags, factor);
      var first := RowGalaxies(Positions(rows[0], 0), y0);
      var tailGs := GalaxiesFrom(rows[1..], y0 + 1);
      assert GalaxiesFrom(rows, y0) == first + tailGs;
      ExpandRowPositions(rows[0], flags, factor, 0, 0);
      MoveRowGalaxies(Positions(rows[0], 0), y0, flags, factor);
      ExpandColumnsGalaxies(expanded[1..], rows[1..], flags, factor, y0 + 1);
      MapSeqAppend(first, tailGs, f);
    }
  }

  /** The cell at index `y` of a line (a dot past its end). */
  function CellAt(y: nat): seq<char> -> char
  {
    line => if y < |line| then line[y] else '.'
  }

  lemma {:induction false} MapRepeat<A, B>(x: A, count: nat, f: A -> B)
    ensures MapSeq(Repeat(x, count), f) == Repeat(f(x), count)
  {
    if count > 0 {
      MapRepeat(x, count - 1, f);
      assert Repeat(x, count)[1..] == Repeat(x, count - 1);
    }
  }

  /** Mapping an expansion expands the mapped list. */
  lemma {:induction false} MapExpansion<A, B>(xs: seq<A>, flags: seq<bool>, factor: nat, fill: A, f: A -> B)
    requires |flags| == |xs|
    ensures MapSeq(ExpandSeq(xs, flags, factor, fill), f) == ExpandSeq(MapSeq(xs, f), flags, factor, f(fill))
  {
    if xs != [] {
      var head := if flags[0] then Repeat(fill, factor) else [xs[0]];
      var rest := ExpandSeq(xs[1..], flags[1..], factor, fill);
      assert ExpandSeq(xs, flags, factor, fill) == head + rest;
      MapSeqAppend(head, rest, f);
      MapExpansion(xs[1..], flags[1..], factor, fill, f);
      MapRepeat(fill, factor, f);
      var m := MapSeq(xs, f);
      assert m[0] == f(xs[0]) && m[1..] == MapSeq(xs[1..], f);
      assert MapSeq(head, f) == if flags[0] then Repeat(f(fill), factor) else [m[0]];
    }
  }

  /** `expanded` is `rows` with the columns `flags` marks (all dots) expanded. */
  predicate RowsExpandedBy(expanded: seq<seq<char>>, rows: seq<seq<char>>, flags: seq<bool>, factor: nat)
  {
    && |expanded| == |rows|
    && (forall y | 0 <= y < |rows| :: |rows[y]| == |flags| && expanded[y] == ExpandSeq(rows[y], flags, factor, '.'))
    && (forall y, i | 0 <= y < |rows| && 0 <= i < |flags| && flags[i] :: rows[y][i] == '.')
  }

  /** With at least one column, `ExpandColumns` keeps the rows and expands each row's empty columns. */
  lemma ExpandColumnsRows(universe: seq<seq<char>>, factor: nat)
    requires Rectangular(universe) && |universe| >= 1 && |universe[0]| >= 1 && factor >= 1
    ensures RowsCoverFirst(universe)
    ensures RowsExpandedBy(ExpandColumns(universe, factor), universe, EmptyFlags(Transpose(universe)), factor)
  {
    EmptyColumnsAreDots(universe);
    var t := Transpose(universe);
    var flags := EmptyFlags(t);
    var fill := Repeat('.', |universe|);
    var columns := ExpandLines(t, factor, |universe|);
    ColumnsCoverFirst(universe, factor);
    ExpandSeqLength(t, flags, factor, fill);
    assert |columns| >= 1;
    var c := ExpandColumns(universe, factor);
    assert c == Transpose(columns);
    forall y | 0 <= y < |universe| ensures c[y] == ExpandSeq(universe[y], flags, factor, '.') {
      MapExpansion(t, flags, factor, fill, CellAt(y));
      assert c[y] == MapSeq(columns, CellAt(y));
      assert MapSeq(t, CellAt(y)) == universe[y];
    }
  }

  /** Expanding a row's empty columns neither creates nor removes a galaxy in it. */
  lemma ExpandKeepsEmptiness(row: seq<char>, flags: seq<bool>, factor: nat)
    requires |row| == |flags| && forall i | 0 <= i < |row| && flags[i] :: row[i] == '.'
    ensures AllDots(ExpandSeq(row, flags, factor, '.')) <==> AllDots(row)
  {
    var e := ExpandSeq(row, flags, factor, '.');
    if AllDots(row) {
      forall j | 0 <= j < |e| ensures e[j] == '.' {
        ExpandSeqOrigin(row, flags, factor, '.', j);
      }
    }
    if AllDots(e) {
      forall i | 0 <= i < |row| ensures row[i] == '.' {
        if !flags[i] {
          ExpandSeqKeeps(row, flags, factor, '.', i);
        }
      }
    }
  }

  /** A galaxy moved to its column and its row in the expanded image. */
  function Relocate(columnFlags: seq<bool>, rowFlags: seq<bool>, factor: nat): Galaxy -> Galaxy
  {
    (g: Galaxy) => Galaxy(Landing(columnFlags, factor, g.x), Landing(rowFlags, factor, g.y))
  }

  /**
   * `expand` moves every galaxy, in reading order, to column NewIndex(empty columns) and row
   * NewIndex(empty rows): `factor - 1` further for every empty column left of it and every empty
   * row above it (`NewIndexFormula`).
   */
  lemma ExpandMovesGalaxies(universe: seq<seq<char>>, factor: nat)
    requires Rectangular(universe) && |universe| >= 1 && |universe[0]| >= 1 && factor >= 1
    ensures RowsCoverFirst(universe)
    ensures Galaxies(Expand(universe, factor))
            == MapSeq(Galaxies(universe), Relocate(EmptyFlags(Transpose(universe)), EmptyFlags(universe), factor))
  {
    ExpandColumnsRows(universe, factor);
    ExpandColumnsKeepEmptyRows(universe, factor);
    ComposeMoves(universe, ExpandColumns(universe, factor), EmptyFlags(Transpose(universe)), factor, |universe|);
  }

  /** Expanding the columns and then the rows relocates every galaxy. */
  lemma ComposeMoves(rows: seq<seq<char>>, expanded: seq<seq<char>>, columnFlags: seq<bool>, factor: nat, width: nat)
    requires RowsExpandedBy(expanded, rows, columnFlags, factor)
    ensures GalaxiesFrom(ExpandLines(expanded, factor, width), 0)
            == MapSeq(GalaxiesFrom(rows, 0), Relocate(columnFlags, EmptyFlags(expanded), factor))
  {
    var rowFlags := EmptyFlags(expanded);
    ExpandRowsGalaxies(expanded, rowFlags, factor, Repeat('.', width), 0, 0);
    ExpandColumnsGalaxies(expanded, rows, columnFlags, factor, 0);
    MoveTwice(GalaxiesFrom(rows, 0), columnFlags, rowFlags, factor);
  }

  /** A cell of an empty column is a dot. */
  lemma EmptyColumnsAreDots(universe: seq<seq<char>>)
    requires Rectangular(universe)
    ensures RowsCoverFirst(universe)
    ensures forall y | 0 <= y < |universe| :: |universe[y]| == |EmptyFlags(Transpose(universe))|
    ensures forall y, i | 0 <= y < |universe| && 0 <= i < |EmptyFlags(Transpose(universe))| && EmptyFlags(Transpose(universe))[i] ::
              universe[y][i] == '.'
  {
    var t := Transpose(universe);
    forall y, i | 0 <= y < |universe| && 0 <= i < |t| && AllDots(t[i]) ensures universe[y][i] == '.' {
      assert t[i][y] == universe[y][i];
    }
  }

  /** Expanding the columns keeps exactly the same rows empty. */
  lemma ExpandColumnsKeepEmptyRows(universe: seq<seq<char>>, factor: nat)
    requires Rectangular(universe) && |universe| >= 1 && |universe[0]| >= 1 && factor >= 1
    ensures RowsCoverFirst(universe)
    ensures EmptyFlags(ExpandColumns(universe, factor)) == EmptyFlags(universe)
  {
    ExpandColumnsRows(universe, factor);
    SameEmptyRows(ExpandColumns(universe, factor), universe, EmptyFlags(Transpose(universe)), factor);
  }

  lemma SameEmptyRows(expanded: seq<seq<char>>, rows: seq<seq<char>>, flags: seq<bool>, factor: nat)
    requires RowsExpandedBy(expanded, rows, flags, factor)
    ensures EmptyFlags(expanded) == EmptyFlags(rows)
  {
    forall y | 0 <= y < |rows| ensures AllDots(expanded[y]) == AllDots(rows[y]) {
      ExpandKeepsEmptiness(rows[y], flags, factor);
    }
  }

  /** Moving sideways and then down is relocating. */
  lemma MoveTwice(gs: seq<Galaxy>, columnFlags: seq<bool>, rowFlags: seq<bool>, factor: nat)
    ensures MapSeq(MapSeq(gs, MoveColumn(columnFlags, factor)), MoveRow(rowFlags, factor, 0, 0))
            == MapSeq(gs, Relocate(columnFlags, rowFlags, factor))
  {
    var l, r := MapSeq(MapSeq(gs, MoveColumn(columnFlags, factor)), MoveRow(rowFlags, factor, 0, 0)),
                MapSeq(gs, Relocate(columnFlags, rowFlags, factor));
    forall k | 0 <= k < |gs| ensures l[k] == r[k] {
    }
  }

  /** With factor 1 nothing moves. */
  lemma {:induction false} FactorOneKeepsPlaces(flags: seq<bool>, i: nat)
    requires i <= |flags|
    ensures NewIndex(flags, 1, i) == i
  {
    if i > 0 {
      FactorOneKeepsPlaces(flags, i - 1);
    }
  }

  // ---------------------------------------------------------------------------------------
  // Summing the distances
  // ---------------------------------------------------------------------------------------

  /** The distances from `g` to each galaxy of `others`, summed. */
  function SumDistances(g: Galaxy, others: seq<Galaxy>): (d: int)
    ensures d >= 0
  {
    if others == [] then 0 else ManhattanDistance(g, others[0]) + SumDistances(g, others[1..])
  }

  /** The `foldIndexed` of `solve`: each galaxy's distances to the galaxies after it, summed. */
  function PairSum(gs: seq<Galaxy>): (d: int)
    ensures d >= 0
  {
    if gs == [] then 0 else SumDistances(gs[0], gs[1..]) + PairSum(gs[1..])
  }

  lemma {:induction false} SumDistancesSnoc(g: Galaxy, others: seq<Galaxy>, h: Galaxy)
    ensures SumDistances(g, others + [h]) == SumDistances(g, others) + ManhattanDistance(g, h)
  {
    if others != [] {
      assert (others + [h])[1..] == others[1..] + [h];
      SumDistancesSnoc(g, others[1..], h);
    } else {
      assert (others + [h])[1..] == [];
    }
  }

  /**
   * Each pair is counted once, whichever of its galaxies comes first: adding a galaxy at the end
   * adds its distances to all earlier galaxies.
   */
  lemma {:induction false} PairSumSnoc(gs: seq<Galaxy>, h: Galaxy)
    ensures PairSum(gs + [h]) == PairSum(gs) + SumDistances(h, gs)
  {
    if gs == [] {
      assert [] + [h] == [h];
    } else {
      assert (gs + [h])[0] == gs[0] && (gs + [h])[1..] == gs[1..] + [h];
      PairSumSnoc(gs[1..], h);
      SumDistancesSnoc(gs[0], gs[1..], h);
      ManhattanSymmetric(gs[0], h);
    }
  }

  /** `solve`: the sum of the distances between all unordered pairs of galaxies after expansion. */
  function Solve(universe: seq<seq<char>>, factor: nat): int
    requires RowsCoverFirst(universe)
  {
    PairSum(Galaxies(Expand(universe, factor)))
  }

  /** The same sum computed from the original galaxies relocated, without building the expanded image. */
  function SolveByRelocation(universe: seq<seq<char>>, factor: nat): int
    requires RowsCoverFirst(universe)
  {
    PairSum(MapSeq(Galaxies(universe), Relocate(EmptyFlags(Transpose(universe)), EmptyFlags(universe), factor)))
  }

  /** Part 2 can work on coordinates alone: both ways give the same sum. */
  lemma SolveWithoutMaterialising(universe: seq<seq<char>>, factor: nat)
    requires Rectangular(universe) && |universe| >= 1 && |universe[0]| >= 1 && factor >= 1
    ensures RowsCoverFirst(universe)
    ensures Solve(universe, factor) == SolveByRelocation(universe, factor)
  {
    ExpandMovesGalaxies(universe, factor);
  }
}
