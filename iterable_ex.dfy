/** The shared list helpers: adjacent differences and the transposition of a grid of rows. */
module IterableEx {
  import opened Common

  /** `differences`: each element minus the one before it (`zipWithNext { a, b -> b - a }`). */
  function Differences(a: seq<int>): (d: seq<int>)
    ensures |a| == 0 ==> d == []
    ensures |a| >= 1 ==> |d| == |a| - 1
    ensures forall i | 0 <= i < |d| :: d[i] == a[i + 1] - a[i]
  {
    if |a| < 2 then [] else [a[1] - a[0]] + Differences(a[1..])
  }

  /** Dropping the last element of the input drops the last difference. */
  lemma {:induction false} DifferencesPrefix(a: seq<int>)
    requires |a| >= 2
    ensures Differences(a[..|a| - 1]) == Differences(a)[..|a| - 2]
  {
    var p := a[..|a| - 1];
    if |a| > 2 {
      DifferencesPrefix(a[1..]);
      assert p[1..] == a[1..][..|a| - 2];
      assert p[0] == a[0] && p[1] == a[1];
    }
  }

  /** The differences telescope: their sum is the last element minus the first. */
  lemma {:induction false} DifferencesTelescope(a: seq<int>)
    requires |a| >= 1
    ensures Sum(Differences(a)) == a[|a| - 1] - a[0]
  {
    if |a| >= 2 {
      var d := Differences(a);
      DifferencesPrefix(a);
      DifferencesTelescope(a[..|a| - 1]);
      assert d[..|d| - 1] == Differences(a[..|a| - 1]);
    }
  }

  /** Rebuilding a list from its first element and its differences (running sums). */
  function Integrate(first: int, d: seq<int>): (a: seq<int>)
    ensures |a| == |d| + 1 && a[0] == first
    decreases |d|
  {
    if d == [] then [first] else [first] + Integrate(first + d[0], d[1..])
  }

  /** `differences` loses nothing but the first element. */
  lemma {:induction false} IntegrateDifferences(a: seq<int>)
    requires |a| >= 1
    ensures Integrate(a[0], Differences(a)) == a
  {
    if |a| >= 2 {
      IntegrateDifferences(a[1..]);
      assert Differences(a)[1..] == Differences(a[1..]);
    }
  }

  /** Every row is at least as long as the first: what `transpose` needs to index each row. */
  predicate RowsCoverFirst<E>(grid: seq<seq<E>>)
  {
    grid != [] ==> forall r | 0 <= r < |grid| :: |grid[r]| >= |grid[0]|
  }

  /** All rows have the same length. */
  predicate Rectangular<E>(grid: seq<seq<E>>)
  {
    forall r | 0 <= r < |grid| :: |grid[r]| == |grid[0]|
  }

  /**
   * `transpose`: one row per index of the first row, holding that column of every row; the
   * empty grid transposes to the empty list.
   */
  function Transpose<E>(grid: seq<seq<E>>): (t: seq<seq<E>>)
    requires RowsCoverFirst(grid)
    ensures grid == [] ==> t == []
    ensures grid != [] ==> |t| == |grid[0]|
    ensures forall i | 0 <= i < |t| :: |t[i]| == |grid|
    ensures forall i, j | 0 <= i < |t| && 0 <= j < |grid| :: t[i][j] == grid[j][i]
  {
    if grid == [] then []
    else seq(|grid[0]|, i requires 0 <= i < |grid[0]| => seq(|grid|, j requires 0 <= j < |grid| => grid[j][i]))
  }

  /** Transposing a grid with at least one row and one column twice gives it back. */
  lemma TransposeTwice<E>(grid: seq<seq<E>>)
    requires |grid| >= 1 && |grid[0]| >= 1 && Rectangular(grid)
    ensures RowsCoverFirst(Transpose(grid))
    ensures Transpose(Transpose(grid)) == grid
  {
    var t := Transpose(grid);
    var tt := Transpose(t);
    assert |tt| == |grid|;
    forall j | 0 <= j < |grid| ensures tt[j] == grid[j] {
      assert |tt[j]| == |t| == |grid[j]|;
    }
  }

  /** A grid whose rows are all empty loses its rows: the round trip needs a column. */
  lemma TransposeOfEmptyRows()
    ensures Transpose<int>([[], []]) == []
  {
  }
}
