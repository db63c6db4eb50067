/**
 * Point of incidence: every pattern of ash (`.`) and rocks (`#`) has a line of reflection between
 * two rows or between two columns; part 2 looks for the line that is off by exactly one smudge.
 */
module Day13 {
  import opened Common
  import opened IterableEx

  /** A pattern: its lines, each a list of characters. */
  type Grid = seq<seq<char>>

  /** The lines of all the patterns, in order. */
  function Concat(grids: seq<Grid>): (lines: seq<string>)
  {
    if grids == [] then [] else Concat(grids[..|grids| - 1]) + grids[|grids| - 1]
  }

  /** The input without its separator lines. */
  function WithoutSeparators(input: seq<string>): (lines: seq<string>)
  {
    if input == [] then []
    else WithoutSeparators(input[..|input| - 1]) + (if input[|input| - 1] == ">" then [] else [input[|input| - 1]])
  }

  /**
   * `gridsFrom`: a fold that adds each line to the last pattern, a line `">"` starting a new
   * pattern instead. There is always one pattern more than there are separators.
   */
  function GridsFrom(input: seq<string>): (grids: seq<Grid>)
    ensures |grids| == CountOf(input, ">") + 1
  {
    if input == [] then [[]]
    else
      var acc := GridsFrom(input[..|input| - 1]);
      var line := input[|input| - 1];
      if line != ">" then acc[..|acc| - 1] + [acc[|acc| - 1] + [line]] else acc + [[]]
  }

  /** Grouping loses no line and invents none: the patterns hold the non-separator lines in order. */
  lemma {:induction false} GridsFromKeepsLines(input: seq<string>)
    ensures Concat(GridsFrom(input)) == WithoutSeparators(input)
  {
    if input != [] {
      var init := input[..|input| - 1];
      var acc := GridsFrom(init);
      GridsFromKeepsLines(init);
      var grids := GridsFrom(input);
      var line := input[|input| - 1];
      if line != ">" {
        var front, last := acc[..|acc| - 1], acc[|acc| - 1];
        assert grids[..|grids| - 1] == front && grids[|grids| - 1] == last + [line];
        calc {
          Concat(grids);
          Concat(front) + (last + [line]);
          { ConcatAssociative(Concat(front), last, [line]); }
          (Concat(front) + last) + [line];
          Concat(acc) + [line];
          WithoutSeparators(init) + [line];
          WithoutSeparators(input);
        }
      } else {
        assert grids[..|grids| - 1] == acc && grids[|grids| - 1] == [];
        assert Concat(grids) == Concat(acc) + [];
      }
    }
  }

  /** `countDifferences`: the positions where the two lines differ, as far as both go (`zip`). */
  function CountDifferences(a: seq<char>, b: seq<char>): (n: nat)
    ensures n <= |a| && n <= |b|
  {
    if a == [] || b == [] then 0 else CountDifferences(a[1..], b[1..]) + (if a[0] != b[0] then 1 else 0)
  }

  lemma {:induction false} CountDifferencesSymmetric(a: seq<char>, b: seq<char>)
    ensures CountDifferences(a, b) == CountDifferences(b, a)
  {
    if a != [] && b != [] {
      CountDifferencesSymmetric(a[1..], b[1..]);
    }
  }

  /** No difference is counted exactly when the lines agree as far as both go; a line never differs from itself. */
  lemma {:induction false} CountDifferencesZero(a: seq<char>, b: seq<char>)
    ensures CountDifferences(a, b) == 0 <==> forall i | 0 <= i < |a| && i < |b| :: a[i] == b[i]
  {
    if a != [] && b != [] {
      CountDifferencesZero(a[1..], b[1..]);
      if CountDifferences(a, b) == 0 {
        forall i | 0 <= i < |a| && i < |b| ensures a[i] == b[i] {
          if i > 0 {
            assert a[1..][i - 1] == a[i] && b[1..][i - 1] == b[i];
          }
        }
      } else if a[0] == b[0] {
        var j :| 0 <= j < |a| - 1 && j < |b| - 1 && a[1..][j] != b[1..][j];
        assert a[j + 1] != b[j + 1];
      }
    }
  }

  /**
   * The differences summed over the pairs `(2 * idx - it - 1, it)` for `it` from `from` to the
   * last row, leaving out the pairs whose upper row would lie above the pattern.
   */
  function ReflectionDifferences(grid: Grid, idx: nat, from: nat): (n: nat)
    requires idx <= from
    decreases |grid| - from
  {
    if from >= |grid| then 0
    else
      var upper := 2 * idx - from - 1;
      (if upper < 0 then 0 else CountDifferences(grid[upper], grid[from])) + ReflectionDifferences(grid, idx, from + 1)
  }

  /** `isReflectedAbout`: the rows mirrored about the line above row `idx` differ in exactly `numDifferences` places. */
  predicate IsReflectedAbout(grid: Grid, idx: nat, numDifferences: int)
  {
    ReflectionDifferences(grid, idx, idx) == numDifferences
  }

  /** The sum is zero exactly when every mirrored pair that exists agrees as far as both rows go. */
  lemma {:induction false} ReflectionDifferencesZero(grid: Grid, idx: nat, from: nat)
    requires idx <= from
    ensures ReflectionDifferences(grid, idx, from) == 0 <==>
            forall it | from <= it < |grid| && it < 2 * idx :: CountDifferences(grid[2 * idx - 1 - it], grid[it]) == 0
    decreases |grid| - from
  {
    if from < |grid| {
      ReflectionDifferencesZero(grid, idx, from + 1);
    }
  }

  /**
   * With no smudge allowed, a rectangular pattern reflects about the line above row `idx` exactly
   * when each row below the line equals its mirror image above it, as far as the pattern goes.
   */
  lemma ReflectedIffMirrored(grid: Grid, idx: nat)
    requires Rectangular(grid)
    ensures IsReflectedAbout(grid, idx, 0) <==> forall it | idx <= it < |grid| && it < 2 * idx :: grid[2 * idx - 1 - it] == grid[it]
  {
    ReflectionDifferencesZero(grid, idx, idx);
    forall it | idx <= it < |grid| && it < 2 * idx
      ensures CountDifferences(grid[2 * idx - 1 - it], grid[it]) == 0 <==> grid[2 * idx - 1 - it] == grid[it]
    {
      CountDifferencesZero(grid[2 * idx - 1 - it], grid[it]);
      assert |grid[2 * idx - 1 - it]| == |grid[0]| == |grid[it]|;
    }
  }

  /** The first row index from `idx` on whose line is a reflection with the given number of differences, or -1. */
  function FindReflectionFrom(grid: Grid, numDifferences: int, idx: nat): (r: int)
    ensures r == -1 || idx <= r < |grid|
    ensures r == -1 ==> forall i | idx <= i < |grid| :: !IsReflectedAbout(grid, i, numDifferences)
    ensures r != -1 ==> IsReflectedAbout(grid, r, numDifferences)
    ensures r != -1 ==> forall i | idx <= i < r :: !IsReflectedAbout(grid, i, numDifferences)
    decreases |grid| - idx
  {
    if idx >= |grid| then -1
    else if IsReflectedAbout(grid, idx, numDifferences) then idx
    else FindReflectionFrom(grid, numDifferences, idx + 1)
  }

  /**
   * `findReflectionIn`: the smallest index in 1..size-1 (the index 0 is dropped) whose line is a
   * reflection, or -1.
   */
  function FindReflectionIn(grid: Grid, numDifferences: int): (r: int)
  {
    FindReflectionFrom(grid, numDifferences, 1)
  }

  /**
   * `calculateReflectionPoints`: the larger of 100 times the horizontal line's index and the
   * vertical line's index (found on the transposed pattern); -1 when there is neither.
   */
  function CalculateReflectionPoints(grid: Grid, numDifferences: int): (r: int)
    requires RowsCoverFirst(grid)
  {
    Max(FindReflectionIn(grid, numDifferences) * 100, FindReflectionIn(Transpose(grid), numDifferences))
  }

  /** What the summary of one pattern says about its lines of reflection. */
  lemma ReflectionPoints(grid: Grid, numDifferences: int)
    requires RowsCoverFirst(grid)
    ensures var h, v := FindReflectionIn(grid, numDifferences), FindReflectionIn(Transpose(grid), numDifferences);
            var r := CalculateReflectionPoints(grid, numDifferences);
            && r >= -1
            && (r == -1 <==> h == -1 && v == -1)
            && (h != -1 && v == -1 ==> r == 100 * h && 1 <= h < |grid|)
            && (h == -1 && v != -1 ==> r == v && (grid != [] ==> 1 <= v < |grid[0]|))
            && (r != -1 ==> (IsReflectedAbout(grid, r / 100, numDifferences) && r % 100 == 0 && r == 100 * h)
                            || IsReflectedAbout(Transpose(grid), r, numDifferences))
  {
  }

  /** Every pattern has rows as long as its first: what transposing it needs. */
  predicate Transposable(input: seq<string>)
  {
    forall g | g in GridsFrom(input) :: RowsCoverFirst(g)
  }

  function SumPoints(grids: seq<Grid>, numDifferences: int): int
    requires forall g | g in grids :: RowsCoverFirst(g)
  {
    if grids == [] then 0
    else SumPoints(grids[..|grids| - 1], numDifferences) + CalculateReflectionPoints(grids[|grids| - 1], numDifferences)
  }

  /** `part1`: the summary with perfect reflections. */
  function Part1(input: seq<string>): int
    requires Transposable(input)
  {
    SumPoints(GridsFrom(input), 0)
  }

  /** `part2`: the summary with reflections off by exactly one smudge. */
  function Part2(input: seq<string>): int
    requires Transposable(input)
  {
    SumPoints(GridsFrom(input), 1)
  }

  /** The second pattern of the documented example. */
  predicate IsSecondExample(g: Grid)
  {
    g == ["#...##..#", "#....#..#", "..##..###", "#####.##.", "#####.##.", "..##..###", "#....#..#"]
  }

  /** Its rows 4 and 5, 3 and 6, 2 and 7 coincide. */
  lemma SecondExampleMirrorsAt4(g: Grid)
    requires IsSecondExample(g)
    ensures IsReflectedAbout(g, 4, 0)
  {
    assert |g| == 7 && g[3] == g[4] && g[2] == g[5] && g[1] == g[6];
    MirroredAt4(g);
  }

  /** A seven-row pattern whose rows pair up about the line above row 4 reflects there. */
  lemma MirroredAt4(grid: Grid)
    requires |grid| == 7 && grid[3] == grid[4] && grid[2] == grid[5] && grid[1] == grid[6]
    ensures IsReflectedAbout(grid, 4, 0)
  {
    ReflectionDifferencesZero(grid, 4, 4);
    forall it | 4 <= it < 7 ensures CountDifferences(grid[7 - it], grid[it]) == 0 {
      CountDifferencesZero(grid[7 - it], grid[it]);
    }
  }

  /** The lines above rows 2, 3 and 4 each separate two different rows. */
  lemma SecondExampleNotEarlier(g: Grid)
    requires IsSecondExample(g)
    ensures !IsReflectedAbout(g, 1, 0) && !IsReflectedAbout(g, 2, 0) && !IsReflectedAbout(g, 3, 0)
  {
    assert g[0][4] != g[1][4] && g[1][0] != g[2][0] && g[2][0] != g[3][0];
    NotReflectedAt(g, 1, 1, 4);
    NotReflectedAt(g, 2, 2, 0);
    NotReflectedAt(g, 3, 3, 0);
  }

  /** One differing cell in a mirrored pair of rows rules out a perfect reflection. */
  lemma NotReflectedAt(grid: Grid, idx: nat, it: nat, col: nat)
    requires idx <= it < |grid| && it < 2 * idx
    requires col < |grid[it]| && col < |grid[2 * idx - 1 - it]| && grid[2 * idx - 1 - it][col] != grid[it][col]
    ensures !IsReflectedAbout(grid, idx, 0)
  {
    ReflectionDifferencesZero(grid, idx, idx);
    CountDifferencesZero(grid[2 * idx - 1 - it], grid[it]);
  }

  /** So the search finds the horizontal line between rows 4 and 5, worth 400 of the example's 405. */
  lemma SecondExampleHorizontal(g: Grid)
    requires IsSecondExample(g)
    ensures FindReflectionIn(g, 0) == 4
  {
    SecondExampleNotEarlier(g);
    SecondExampleMirrorsAt4(g);
    FirstReflectionAt4(g);
  }

  /** A search from row 1 that passes rows 1 to 3 stops at row 4 when its line is a reflection. */
  lemma FirstReflectionAt4(grid: Grid)
    requires |grid| > 4 && IsReflectedAbout(grid, 4, 0)
    requires !IsReflectedAbout(grid, 1, 0) && !IsReflectedAbout(grid, 2, 0) && !IsReflectedAbout(grid, 3, 0)
    ensures FindReflectionIn(grid, 0) == 4
  {
  }
}
