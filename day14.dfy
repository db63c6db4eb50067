/**
 * Day 14, Parabolic Reflector Dish: a platform of rounded rocks ('O'), cube rocks ('#') and
 * empty spaces ('.'). Tilting rolls every rounded rock towards the start of its row until it
 * meets a cube rock or another rounded rock; a spin cycle tilts north, west, south and east.
 */
module Day14 {
  import opened Common
  import opened IterableEx

  // ---------------------------------------------------------------------------------------
  // One row and the tilt that is specified segment by segment
  // ---------------------------------------------------------------------------------------

  /** A platform row holds only rounded rocks, cube rocks and empty spaces. */
  predicate IsPlatformRow(s: string)
  {
    forall p | 0 <= p < |s| :: s[p] == 'O' || s[p] == '#' || s[p] == '.'
  }

  /** The number of rounded rocks among the cells `a..b` of `s`. */
  function RocksIn(s: string, a: nat, b: nat): (n: nat)
    requires a <= b <= |s|
    ensures n <= b - a
    decreases b
  {
    if a == b then 0 else RocksIn(s, a, b - 1) + (if s[b - 1] == 'O' then 1 else 0)
  }

  /** The number of rounded rocks in a row. */
  function Rocks(s: string): nat
  {
    RocksIn(s, 0, |s|)
  }

  /** The start of the '#'-free stretch that position `p` belongs to. */
  function SegStart(s: string, p: nat): (a: nat)
    requires p <= |s|
    ensures a <= p && (a == 0 || s[a - 1] == '#')
  {
    if p == 0 || s[p - 1] == '#' then p else SegStart(s, p - 1)
  }

  /** The end (exclusive) of the '#'-free stretch that position `p` belongs to. */
  function SegEnd(s: string, p: nat): (b: nat)
    requires p <= |s|
    ensures p <= b <= |s| && (b == |s| || s[b] == '#')
    decreases |s| - p
  {
    if p == |s| || s[p] == '#' then p else SegEnd(s, p + 1)
  }

  /** The rounded rocks of `u` inside the stretch of `s` that holds `p`. */
  function StretchRocks(u: string, s: string, p: nat): nat
    requires |u| == |s| && p <= |s|
  {
    RocksIn(u, SegStart(s, p), SegEnd(s, p))
  }

  /**
   * What the tilted row holds at `p`: cube rocks stay, and the first k cells of every
   * '#'-free stretch holding k rounded rocks are rounded rocks, the rest empty.
   */
  function TiltedAt(s: string, p: nat): char
    requires p < |s|
  {
    if s[p] == '#' then '#'
    else if p - SegStart(s, p) < StretchRocks(s, s, p) then 'O'
    else '.'
  }

  /** The row after all its rounded rocks rolled towards index 0. */
  function Tilted(s: string): (t: string)
    ensures |t| == |s|
    ensures forall p | 0 <= p < |s| :: t[p] == TiltedAt(s, p)
  {
    seq(|s|, p requires 0 <= p < |s| => TiltedAt(s, p))
  }

  /** Two rows of the same length with their cube rocks in the same places. */
  predicate SameCubes(s: string, t: string)
  {
    |s| == |t| && forall p | 0 <= p < |s| :: s[p] == '#' <==> t[p] == '#'
  }

  /** A stretch holds no cube rock. */
  lemma StretchClear(s: string, p: nat)
    requires p <= |s|
    ensures forall q | SegStart(s, p) <= q < SegEnd(s, p) :: s[q] != '#'
  {
    StartClear(s, p);
    EndClear(s, p);
  }

  lemma {:induction false} StartClear(s: string, p: nat)
    requires p <= |s|
    ensures forall q | SegStart(s, p) <= q < p :: s[q] != '#'
  {
    if p > 0 && s[p - 1] != '#' {
      StartClear(s, p - 1);
    }
  }

  lemma {:induction false} EndClear(s: string, p: nat)
    requires p <= |s|
    ensures forall q | p <= q < SegEnd(s, p) :: s[q] != '#'
    decreases |s| - p
  {
    if p < |s| && s[p] != '#' {
      EndClear(s, p + 1);
    }
  }

  /** A start recognised from its defining properties. */
  lemma {:induction false} SegStartIs(s: string, a: nat, p: nat)
    requires a <= p <= |s| && (a == 0 || s[a - 1] == '#')
    requires forall q | a <= q < p :: s[q] != '#'
    ensures SegStart(s, p) == a
    decreases p
  {
    if p > a {
      SegStartIs(s, a, p - 1);
    }
  }

  /** An end recognised from its defining properties. */
  lemma {:induction false} SegEndIs(s: string, p: nat, b: nat)
    requires p <= b <= |s| && (b == |s| || s[b] == '#')
    requires forall q | p <= q < b :: s[q] != '#'
    ensures SegEnd(s, p) == b
    decreases b - p
  {
    if p < b {
      SegEndIs(s, p + 1, b);
    }
  }

  /** Every member of a stretch has that stretch's bounds. */
  lemma SameStretch(s: string, i: nat, p: nat)
    requires i <= |s| && SegStart(s, i) <= p < SegEnd(s, i)
    ensures SegStart(s, p) == SegStart(s, i) && SegEnd(s, p) == SegEnd(s, i)
  {
    StretchClear(s, i);
    SegStartIs(s, SegStart(s, i), p);
    SegEndIs(s, p, SegEnd(s, i));
  }

  /** Rows with the same cube rocks have the same stretches. */
  lemma SameCubesSameStretch(s: string, t: string, p: nat)
    requires SameCubes(s, t) && p <= |s|
    ensures SegStart(t, p) == SegStart(s, p) && SegEnd(t, p) == SegEnd(s, p)
  {
    StretchClear(s, p);
    SegStartIs(t, SegStart(s, p), p);
    SegEndIs(t, p, SegEnd(s, p));
  }

  /** Counting the rocks of a range piece by piece. */
  lemma {:induction false} RocksSplit(t: string, a: nat, i: nat, b: nat)
    requires a <= i <= b <= |t|
    ensures RocksIn(t, a, b) == RocksIn(t, a, i) + RocksIn(t, i, b)
    decreases b
  {
    if i < b {
      RocksSplit(t, a, i, b - 1);
    }
  }

  /** A range whose first `c` cells are exactly its rounded rocks holds min(length, c) of them. */
  lemma {:induction false} PackedCount(u: string, a: nat, b: nat, c: nat)
    requires a <= b <= |u|
    requires forall k | a <= k < b :: u[k] == 'O' <==> k - a < c
    ensures RocksIn(u, a, b) == Min(b - a, c)
    decreases b
  {
    if a < b {
      PackedCount(u, a, b - 1, c);
    }
  }

  /** A range without rounded rocks counts none. */
  lemma {:induction false} NoRocks(u: string, a: nat, b: nat)
    requires a <= b <= |u|
    requires forall k | a <= k < b :: u[k] != 'O'
    ensures RocksIn(u, a, b) == 0
    decreases b
  {
    if a < b {
      NoRocks(u, a, b - 1);
    }
  }

  /** A range with a rounded rock counts at least one. */
  lemma {:induction false} SomeRock(u: string, a: nat, b: nat, k: nat)
    requires a <= k < b <= |u| && u[k] == 'O'
    ensures RocksIn(u, a, b) > 0
    decreases b
  {
    if k < b - 1 {
      SomeRock(u, a, b - 1, k);
    }
  }

  /** Changing one cell inside a range changes its count by what the cell gains or loses. */
  lemma {:induction false} UpdateInside(t: string, a: nat, b: nat, x: nat, c: char)
    requires a <= x < b <= |t|
    ensures RocksIn(t[x := c], a, b) + (if t[x] == 'O' then 1 else 0)
         == RocksIn(t, a, b) + (if c == 'O' then 1 else 0)
    decreases b
  {
    if x < b - 1 {
      UpdateInside(t, a, b - 1, x, c);
    } else {
      UpdateOutside(t, a, b - 1, x, c);
    }
  }

  /** Changing a cell outside a range leaves its count alone. */
  lemma {:induction false} UpdateOutside(t: string, a: nat, b: nat, x: nat, c: char)
    requires a <= b <= |t| && x < |t| && !(a <= x < b)
    ensures RocksIn(t[x := c], a, b) == RocksIn(t, a, b)
    decreases b
  {
    if a < b {
      UpdateOutside(t, a, b - 1, x, c);
    }
  }

  /**
   * The loop invariant of the in-place roll: `t` is `s` after some rocks moved inside their
   * stretches, and the first `i` cells already hold their final value.
   */
  ghost predicate RollInv(s: string, t: string, i: nat)
  {
    SameCubes(s, t) && i <= |t| && IsPlatformRow(t)
    && (forall p | 0 <= p < |s| :: StretchRocks(t, s, p) == StretchRocks(s, s, p))
    && (forall p | 0 <= p < i :: t[p] == TiltedAt(s, p))
  }

  /** Inside one stretch the tilted row is its rocks followed by empty cells. */
  lemma TiltedInStretch(s: string, i: nat, p: nat)
    requires i <= |s| && SegStart(s, i) <= p < SegEnd(s, i)
    ensures TiltedAt(s, p) == if p - SegStart(s, i) < StretchRocks(s, s, i) then 'O' else '.'
  {
    StretchClear(s, i);
    SameStretch(s, i, p);
  }

  /**
   * A row agreeing with the tilted row on the start `a..e` of the stretch of `i` counts
   * min(e - a, the stretch's rocks) rounded rocks there.
   */
  lemma PackedPrefix(s: string, t: string, i: nat, e: nat)
    requires |t| == |s| && i <= |s| && SegStart(s, i) <= e <= SegEnd(s, i)
    requires forall p | SegStart(s, i) <= p < e :: t[p] == TiltedAt(s, p)
    ensures RocksIn(t, SegStart(s, i), e) == Min(e - SegStart(s, i), StretchRocks(s, s, i))
  {
    var a := SegStart(s, i);
    forall k | a <= k < e ensures t[k] == 'O' <==> k - a < StretchRocks(s, s, i) {
      TiltedInStretch(s, i, k);
    }
    PackedCount(t, a, e, StretchRocks(s, s, i));
  }

  /**
   * At the first unsettled cell `i` of a stretch: it is a rounded rock in the tilted row exactly
   * when some rounded rock is still at or after `i` in that stretch; otherwise the tilted
   * stretch is empty from `i` on.
   */
  lemma SettledAt(s: string, t: string, i: nat)
    requires |t| == |s| && i < |s| && s[i] != '#'
    requires StretchRocks(t, s, i) == StretchRocks(s, s, i)
    requires forall p | SegStart(s, i) <= p < i :: t[p] == TiltedAt(s, p)
    ensures RocksIn(t, i, SegEnd(s, i)) > 0 ==> TiltedAt(s, i) == 'O'
    ensures RocksIn(t, i, SegEnd(s, i)) == 0 ==>
      forall p | i <= p < SegEnd(s, i) :: TiltedAt(s, p) == '.'
  {
    var a, b := SegStart(s, i), SegEnd(s, i);
    PackedPrefix(s, t, i, i);
    RocksSplit(t, a, i, b);
    forall p | i <= p < b ensures TiltedAt(s, p) == if p - a < StretchRocks(s, s, i) then 'O' else '.' {
      TiltedInStretch(s, i, p);
    }
  }

  /** A rounded rock or a cube rock at `i` is already in place. */
  lemma StepKeep(s: string, t: string, i: nat)
    requires RollInv(s, t, i) && i < |t| && (t[i] == 'O' || t[i] == '#')
    ensures RollInv(s, t, i + 1)
  {
    if t[i] == 'O' {
      SomeRock(t, i, SegEnd(s, i), i);
      assert StretchRocks(t, s, i) == StretchRocks(s, s, i);
      SettledAt(s, t, i);
    }
  }

  /** An empty cell followed by empty cells and then a cube rock: all of it is in place. */
  lemma StepCube(s: string, t: string, i: nat, j: nat)
    requires RollInv(s, t, i) && i < j < |t| && t[i] == '.' && t[j] == '#'
    requires forall q | i < q < j :: t[q] == '.'
    ensures RollInv(s, t, j + 1)
  {
    assert s[j] == '#' && forall q | i <= q < j :: s[q] != '#';
    SegEndIs(s, i, j);
    NoRocks(t, i, j);
    assert StretchRocks(t, s, i) == StretchRocks(s, s, i);
    SettledAt(s, t, i);
    assert TiltedAt(s, j) == '#';
  }

  /** An empty cell with nothing but empty cells after it is in place. */
  lemma StepEmpty(s: string, t: string, i: nat)
    requires RollInv(s, t, i) && i < |t| && t[i] == '.'
    requires forall q | i < q < |t| :: t[q] == '.'
    ensures RollInv(s, t, i + 1)
  {
    NoRocks(t, i, SegEnd(s, i));
    assert StretchRocks(t, s, i) == StretchRocks(s, s, i);
    SettledAt(s, t, i);
  }

  /** Moving the next rounded rock of the stretch into the empty cell `i` settles `i`. */
  lemma StepSwap(s: string, t: string, i: nat, j: nat)
    requires RollInv(s, t, i) && i < j < |t| && t[i] == '.' && t[j] == 'O'
    requires forall q | i < q < j :: t[q] == '.'
    ensures RollInv(s, t[i := 'O'][j := '.'], i + 1)
  {
    var b := SegEnd(s, i);
    assert j < b;
    SomeRock(t, i, b, j);
    assert StretchRocks(t, s, i) == StretchRocks(s, s, i);
    SettledAt(s, t, i);
    SwapKeepsStretches(s, t, i, j);
  }

  /** The swap of `StepSwap` keeps the count of every stretch of the row. */
  lemma SwapKeepsStretches(s: string, t: string, i: nat, j: nat)
    requires SameCubes(s, t) && i < j < |t| && t[i] == '.' && t[j] == 'O'
    requires forall q | i < q < j :: t[q] == '.'
    ensures forall p | 0 <= p < |s| :: StretchRocks(t[i := 'O'][j := '.'], s, p) == StretchRocks(t, s, p)
  {
    forall p | 0 <= p < |s|
      ensures StretchRocks(t[i := 'O'][j := '.'], s, p) == StretchRocks(t, s, p)
    {
      SwapKeepsStretch(s, t, i, j, p);
    }
  }

  /** The swap of `StepSwap` keeps the count of every stretch. */
  lemma SwapKeepsStretch(s: string, t: string, i: nat, j: nat, p: nat)
    requires SameCubes(s, t) && i < j < |t| && t[i] == '.' && t[j] == 'O' && p < |s|
    requires forall q | i < q < j :: t[q] == '.'
    ensures StretchRocks(t[i := 'O'][j := '.'], s, p) == StretchRocks(t, s, p)
  {
    var a, b := SegStart(s, p), SegEnd(s, p);
    var t1 := t[i := 'O'];
    if a <= i < b {
      StretchClear(s, p);
      assert j < b;
      UpdateInside(t, a, b, i, 'O');
      UpdateInside(t1, a, b, j, '.');
    } else {
      assert !(a <= j < b);
      UpdateOutside(t, a, b, i, 'O');
      UpdateOutside(t1, a, b, j, '.');
    }
  }

  /** Once every cell is settled the row is the tilted row. */
  lemma RollDone(s: string, t: string)
    requires RollInv(s, t, |t|)
    ensures t == Tilted(s)
  {
  }

  /**
   * `rollOnce` on one row, in place: every empty cell takes the next rounded rock of its
   * stretch, if there is one before the next cube rock.
   */
  method RollRow(row: array<char>)
    requires IsPlatformRow(row[..])
    modifies row
    ensures row[..] == Tilted(old(row[..]))
  {
    ghost var s := row[..];
    var i := 0;
    while i < row.Length
      invariant RollInv(s, row[..], i)
    {
      if row[i] != 'O' && row[i] != '#' {
        ghost var t := row[..];
        ghost var settled := false;
        for j := i + 1 to row.Length
          invariant row[..] == t && !settled
          invariant forall q | i < q < j :: row[q] == '.'
        {
          if row[j] == 'O' {
            StepSwap(s, t, i, j);
            row[i] := 'O';
            row[j] := '.';
            assert row[..] == t[i := 'O'][j := '.'];
            settled := true;
            break;
          } else if row[j] == '#' {
            StepCube(s, t, i, j);
            i := j;
            settled := true;
            break;
          }
        }
        if !settled {
          StepEmpty(s, t, i);
        }
      } else {
        StepKeep(s, row[..], i);
      }
      i := i + 1;
    }
    RollDone(s, row[..]);
  }

  // ---------------------------------------------------------------------------------------
  // What a tilt promises
  // ---------------------------------------------------------------------------------------

  /** Tilting keeps the length, keeps every cube rock where it is, and leaves a platform row. */
  lemma TiltKeepsCubes(s: string)
    ensures SameCubes(s, Tilted(s)) && IsPlatformRow(Tilted(s))
  {
  }

  /** Each '#'-free stretch keeps its number of rounded rocks. */
  lemma TiltKeepsStretchRocks(s: string, i: nat)
    requires i <= |s|
    ensures StretchRocks(Tilted(s), s, i) == StretchRocks(s, s, i)
  {
    PackedPrefix(s, Tilted(s), i, SegEnd(s, i));
  }

  /** The prefix up to a stretch boundary keeps its number of rounded rocks. */
  lemma {:induction false} TiltKeepsRocksUpTo(s: string, b: nat)
    requires b <= |s| && (b == |s| || s[b] == '#')
    ensures RocksIn(Tilted(s), 0, b) == RocksIn(s, 0, b)
    decreases b
  {
    var t := Tilted(s);
    var a := SegStart(s, b);
    SegEndIs(s, b, b);
    TiltKeepsStretchRocks(s, b);
    if a > 0 {
      TiltKeepsRocksUpTo(s, a - 1);
      RocksAcrossCube(t, s, a, b);
    }
  }

  /** Two rows agreeing on the rocks before a shared cube rock and on the stretch after it. */
  lemma RocksAcrossCube(t: string, s: string, a: nat, b: nat)
    requires 0 < a <= b <= |t| && b <= |s| && t[a - 1] == '#' && s[a - 1] == '#'
    requires RocksIn(t, 0, a - 1) == RocksIn(s, 0, a - 1) && RocksIn(t, a, b) == RocksIn(s, a, b)
    ensures RocksIn(t, 0, b) == RocksIn(s, 0, b)
  {
    RocksSplit(t, 0, a - 1, b);
    RocksSplit(t, a - 1, a, b);
    RocksSplit(s, 0, a - 1, b);
    RocksSplit(s, a - 1, a, b);
  }

  /** Tilting keeps the number of rounded rocks in the row. */
  lemma TiltKeepsRocks(s: string)
    ensures Rocks(Tilted(s)) == Rocks(s)
  {
    TiltKeepsRocksUpTo(s, |s|);
  }

  /** No empty cell of a tilted row is followed by a rounded rock before the next cube rock. */
  lemma TiltPacks(s: string, p: nat, q: nat)
    requires p < q < |s| && Tilted(s)[p] == '.' && Tilted(s)[q] == 'O'
    ensures exists r | p < r < q :: Tilted(s)[r] == '#'
  {
    var t := Tilted(s);
    TiltKeepsCubes(s);
    if forall r | p < r < q :: t[r] != '#' {
      EmptyStaysEmpty(s, p, q);
    }
  }

  /** Inside one stretch, every cell after an empty cell of the tilted row is empty too. */
  lemma EmptyStaysEmpty(s: string, p: nat, q: nat)
    requires p < q < |s| && s[q] != '#' && TiltedAt(s, p) == '.'
    requires forall r | p < r < q :: s[r] != '#'
    ensures TiltedAt(s, q) == '.'
  {
    StretchClear(s, q);
    SegEndIs(s, p, SegEnd(s, q));
    TiltedInStretch(s, p, p);
    TiltedInStretch(s, p, q);
  }

  /** Tilting twice is tilting once. */
  lemma TiltIdempotent(s: string)
    ensures Tilted(Tilted(s)) == Tilted(s)
  {
    var t := Tilted(s);
    forall p | 0 <= p < |s| ensures TiltedAt(t, p) == t[p] {
      SameCubesSameStretch(s, t, p);
      TiltKeepsStretchRocks(s, p);
    }
  }

  // ---------------------------------------------------------------------------------------
  // Counting rocks across rows and grids
  // ---------------------------------------------------------------------------------------

  /** Two ranges holding the same cells count the same rocks. */
  lemma {:induction false} RocksInMatch(u: string, a: nat, b: nat, v: string, c: nat)
    requires a <= b <= |u| && c + (b - a) <= |v|
    requires forall k | a <= k < b :: u[k] == v[c + (k - a)]
    ensures RocksIn(u, a, b) == RocksIn(v, c, c + (b - a))
    decreases b
  {
    if a < b {
      RocksInMatch(u, a, b - 1, v, c);
    }
  }

  /** The rocks of a concatenation. */
  lemma RocksConcat(u: string, v: string)
    ensures Rocks(u + v) == Rocks(u) + Rocks(v)
  {
    var w := u + v;
    RocksSplit(w, 0, |u|, |w|);
    RocksInMatch(w, 0, |u|, u, 0);
    RocksInMatch(w, |u|, |w|, v, 0);
  }

  /** Reversing a row keeps its rocks. */
  lemma {:induction false} RocksReverse(u: string)
    ensures Rocks(Reverse(u)) == Rocks(u)
  {
    if u != [] {
      RocksReverse(u[1..]);
      RocksConcat(Reverse(u[1..]), [u[0]]);
      RocksConcat([u[0]], u[1..]);
      assert u == [u[0]] + u[1..];
    }
  }

  /** The rounded rocks of a whole grid. */
  function TotalRocks(g: seq<string>): nat
  {
    if g == [] then 0 else TotalRocks(g[..|g| - 1]) + Rocks(g[|g| - 1])
  }

  lemma {:induction false} TotalRocksConcat(g: seq<string>, h: seq<string>)
    ensures TotalRocks(g + h) == TotalRocks(g) + TotalRocks(h)
  {
    if h == [] {
      assert g + h == g;
    } else {
      TotalRocksConcat(g, h[..|h| - 1]);
      assert (g + h)[..|g + h| - 1] == g + h[..|h| - 1];
    }
  }

  /** Reversing the order of the rows keeps the rocks. */
  lemma {:induction false} TotalRocksReverse(g: seq<string>)
    ensures TotalRocks(Reverse(g)) == TotalRocks(g)
  {
    if g != [] {
      TotalRocksReverse(g[1..]);
      TotalRocksConcat(Reverse(g[1..]), [g[0]]);
      TotalRocksConcat([g[0]], g[1..]);
      assert g == [g[0]] + g[1..];
      assert [g[0]][..0] == [];
    }
  }

  /** Appending one cell to every row adds the rocks of the appended column. */
  lemma {:induction false} TotalRocksWithColumn(h: seq<string>, col: string, h': seq<string>)
    requires |h'| == |h| == |col|
    requires forall x | 0 <= x < |h| :: h'[x] == h[x] + [col[x]]
    ensures TotalRocks(h') == TotalRocks(h) + Rocks(col)
  {
    if h != [] {
      var n := |h| - 1;
      TotalRocksWithColumn(h[..n], col[..n], h'[..n]);
      RocksConcat(h[n], [col[n]]);
      RocksConcat(col[..n], [col[n]]);
      assert col == col[..n] + [col[n]];
    }
  }

  /** A grid of empty rows holds no rocks. */
  lemma {:induction false} TotalRocksOfEmptyRows(h: seq<string>)
    requires forall x | 0 <= x < |h| :: h[x] == []
    ensures TotalRocks(h) == 0
  {
    if h != [] {
      TotalRocksOfEmptyRows(h[..|h| - 1]);
    }
  }

  /** Transposing a rectangular grid keeps its rocks: every cell lands in exactly one column. */
  lemma {:induction false} TotalRocksTranspose(g: seq<string>)
    requires Rectangular(g)
    ensures TotalRocks(Transpose(g)) == TotalRocks(g)
  {
    if g != [] {
      var n := |g| - 1;
      var g' := g[..n];
      var t := Transpose(g);
      var col := g[n];
      if n == 0 {
        var empty := seq(|col|, x => "");
        TotalRocksOfEmptyRows(empty);
        TotalRocksWithColumn(empty, col, t);
        assert g' == [];
      } else {
        var t' := Transpose(g');
        TotalRocksTranspose(g');
        forall x | 0 <= x < |t| ensures t[x] == t'[x] + [col[x]] {
          assert |t[x]| == |g| && |t'[x]| == n;
        }
        TotalRocksWithColumn(t', col, t);
      }
    }
  }

  // ---------------------------------------------------------------------------------------
  // Whole grids: rolling every row, the spin cycle and the load
  // ---------------------------------------------------------------------------------------

  /** Every row is a platform row. */
  predicate IsPlatform(g: seq<string>)
  {
    forall r | 0 <= r < |g| :: IsPlatformRow(g[r])
  }

  /** Every row tilted towards its start. */
  function TiltAll(g: seq<string>): (h: seq<string>)
    ensures |h| == |g| && forall r | 0 <= r < |g| :: h[r] == Tilted(g[r])
  {
    seq(|g|, r requires 0 <= r < |g| => Tilted(g[r]))
  }

  /**
   * `rollOnce` on a grid: each row is copied into a mutable buffer and rolled in place (the
   * copy `toMutableList` makes).
   */
  method RollOnce(g: seq<string>) returns (rolled: seq<string>)
    requires IsPlatform(g)
    ensures rolled == TiltAll(g)
  {
    rolled := [];
    for r := 0 to |g|
      invariant |rolled| == r
      invariant forall k | 0 <= k < r :: rolled[k] == Tilted(g[k])
    {
      var row := new char[|g[r]|](k requires 0 <= k < |g[r]| => g[r][k]);
      assert row[..] == g[r];
      RollRow(row);
      rolled := rolled + [row[..]];
    }
  }

  /** Rolling every row leaves the same cubes, the same rocks and a platform. */
  lemma TiltAllKeeps(g: seq<string>)
    ensures IsPlatform(TiltAll(g)) && TotalRocks(TiltAll(g)) == TotalRocks(g)
    ensures forall r | 0 <= r < |g| :: SameCubes(g[r], TiltAll(g)[r])
  {
    TiltAllKeepsRocks(g);
    forall r | 0 <= r < |g| ensures SameCubes(g[r], TiltAll(g)[r]) && IsPlatformRow(TiltAll(g)[r]) {
      TiltKeepsCubes(g[r]);
    }
  }

  lemma {:induction false} TiltAllKeepsRocks(g: seq<string>)
    ensures TotalRocks(TiltAll(g)) == TotalRocks(g)
  {
    if g != [] {
      var n := |g| - 1;
      TiltAllKeepsRocks(g[..n]);
      TiltKeepsRocks(g[n]);
      assert TiltAll(g)[..n] == TiltAll(g[..n]);
    }
  }

  /** Transposing a platform gives a platform. */
  lemma TransposePlatform(g: seq<string>)
    requires RowsCoverFirst(g) && IsPlatform(g)
    ensures IsPlatform(Transpose(g))
  {
  }

  /**
   * `transpose().rollOnce()`: the columns of `g`, each rolled towards its start; a grid whose
   * rows are at least as long as the first becomes a rectangular platform, one row per column.
   */
  function RollColumns(g: seq<string>): (h: seq<string>)
    requires RowsCoverFirst(g) && IsPlatform(g)
    ensures Rectangular(h) && RowsCoverFirst(h) && IsPlatform(h)
    ensures g == [] ==> h == []
    ensures g != [] ==> |h| == |g[0]|
    ensures forall x | 0 <= x < |h| :: |h[x]| == |g|
  {
    TransposePlatform(g);
    TiltAllKeeps(Transpose(g));
    TiltAll(Transpose(g))
  }

  /** Rolled columns keep the cubes of the cells they came from. */
  lemma RollColumnsCubes(g: seq<string>, x: nat, y: nat)
    requires RowsCoverFirst(g) && IsPlatform(g) && x < |RollColumns(g)| && y < |g|
    ensures RollColumns(g)[x][y] == '#' <==> g[y][x] == '#'
  {
    TiltKeepsCubes(Transpose(g)[x]);
  }

  /** `reversed().transpose().rollOnce()`: the columns read bottom-up, each rolled. */
  function RollReversed(g: seq<string>): (h: seq<string>)
    requires Rectangular(g) && IsPlatform(g)
    ensures Rectangular(h) && RowsCoverFirst(h) && IsPlatform(h)
    ensures g == [] ==> h == []
    ensures g != [] ==> |h| == |g[0]|
    ensures forall x | 0 <= x < |h| :: |h[x]| == |g|
  {
    RollColumns(Reverse(g))
  }

  /** Reversed rolled columns keep the cubes of the cells they came from. */
  lemma RollReversedCubes(g: seq<string>, x: nat, y: nat)
    requires Rectangular(g) && IsPlatform(g) && x < |RollReversed(g)| && y < |g|
    ensures RollReversed(g)[x][y] == '#' <==> g[|g| - 1 - y][x] == '#'
  {
    RollColumnsCubes(Reverse(g), x, y);
  }

  /** Every row reversed (`map(MutableList<Char>::reversed)`). */
  function ReverseRows(g: seq<string>): (h: seq<string>)
    ensures |h| == |g| && forall r | 0 <= r < |g| :: h[r] == Reverse(g[r])
  {
    seq(|g|, r requires 0 <= r < |g| => Reverse(g[r]))
  }

  /** Turning a grid by half a turn: rows and the cells in each row reversed. */
  function HalfTurn(g: seq<string>): (h: seq<string>)
    requires Rectangular(g) && IsPlatform(g)
    ensures Rectangular(h) && RowsCoverFirst(h) && IsPlatform(h)
    ensures |h| == |g| && forall y | 0 <= y < |h| :: |h[y]| == |g[|g| - 1 - y]|
    ensures forall y, x | 0 <= y < |h| && 0 <= x < |h[y]| :: h[y][x] == g[|g| - 1 - y][|h[y]| - 1 - x]
  {
    Reverse(ReverseRows(g))
  }

  /**
   * `spinCycle`: roll north (columns towards the top), west (rows towards the left), south and
   * east, using transposes and reversals so that every roll is towards index 0.
   */
  function SpinCycle(g: seq<string>): (h: seq<string>)
    requires RowsCoverFirst(g) && IsPlatform(g)
    ensures Rectangular(h) && RowsCoverFirst(h) && IsPlatform(h)
  {
    HalfTurn(RollReversed(RollReversed(RollColumns(RollColumns(g)))))
  }

  /** Rolled columns keep the rocks of a rectangular grid. */
  lemma RollColumnsRocks(g: seq<string>)
    requires Rectangular(g) && IsPlatform(g)
    ensures TotalRocks(RollColumns(g)) == TotalRocks(g)
  {
    TotalRocksTranspose(g);
    TiltAllKeepsRocks(Transpose(g));
  }

  /** A spin cycle keeps the rounded rocks of a rectangular platform. */
  lemma SpinKeepsRocks(g: seq<string>)
    requires Rectangular(g) && IsPlatform(g)
    ensures TotalRocks(SpinCycle(g)) == TotalRocks(g)
  {
    var north := RollColumns(g);
    var west := RollColumns(north);
    var south := RollReversed(west);
    var east := RollReversed(south);
    RollColumnsRocks(g);
    RollColumnsRocks(north);
    RollReversedRocks(west);
    RollReversedRocks(south);
    ReverseRowsRocks(east);
    TotalRocksReverse(ReverseRows(east));
  }

  lemma RollReversedRocks(g: seq<string>)
    requires Rectangular(g) && IsPlatform(g)
    ensures TotalRocks(RollReversed(g)) == TotalRocks(g)
  {
    TotalRocksReverse(g);
    RollColumnsRocks(Reverse(g));
  }

  lemma {:induction false} ReverseRowsRocks(g: seq<string>)
    ensures TotalRocks(ReverseRows(g)) == TotalRocks(g)
  {
    if g != [] {
      var n := |g| - 1;
      ReverseRowsRocks(g[..n]);
      RocksReverse(g[n]);
      assert ReverseRows(g)[..n] == ReverseRows(g[..n]);
    }
  }

  /**
   * A spin cycle of a platform with at least one row and one column keeps its dimensions and
   * leaves every cube rock where it was.
   */
  /** `h` holds the cubes of `g` with rows and columns swapped. */
  ghost predicate CubesTransposed(g: seq<string>, h: seq<string>)
  {
    |g| >= 1 && RowsCoverFirst(g) && |h| == |g[0]| && (forall x | 0 <= x < |h| :: |h[x]| == |g|)
    && forall x, y | 0 <= x < |h| && 0 <= y < |g| :: h[x][y] == '#' <==> g[y][x] == '#'
  }

  /** `h` holds the cubes of `g` read bottom-up, with rows and columns swapped. */
  ghost predicate CubesReversedTransposed(g: seq<string>, h: seq<string>)
  {
    |g| >= 1 && RowsCoverFirst(g) && |h| == |g[0]| && (forall x | 0 <= x < |h| :: |h[x]| == |g|)
    && forall x, y | 0 <= x < |h| && 0 <= y < |g| :: h[x][y] == '#' <==> g[|g| - 1 - y][x] == '#'
  }

  lemma RollColumnsCubesAll(g: seq<string>)
    requires RowsCoverFirst(g) && IsPlatform(g) && |g| >= 1
    ensures CubesTransposed(g, RollColumns(g))
  {
    forall x, y | 0 <= x < |RollColumns(g)| && 0 <= y < |g|
      ensures RollColumns(g)[x][y] == '#' <==> g[y][x] == '#'
    {
      RollColumnsCubes(g, x, y);
    }
  }

  lemma RollReversedCubesAll(g: seq<string>)
    requires Rectangular(g) && IsPlatform(g) && |g| >= 1
    ensures CubesReversedTransposed(g, RollReversed(g))
  {
    forall x, y | 0 <= x < |RollReversed(g)| && 0 <= y < |g|
      ensures RollReversed(g)[x][y] == '#' <==> g[|g| - 1 - y][x] == '#'
    {
      RollReversedCubes(g, x, y);
    }
  }

  /**
   * Rolling north, west, south and east moves no cube: after the four rolls every cube sits
   * half a turn away from where it started, which the final half turn undoes.
   */
  lemma CubesAfterFourRolls(g: seq<string>, north: seq<string>, west: seq<string>, south: seq<string>, east: seq<string>)
    requires Rectangular(g) && |g| >= 1 && |g[0]| >= 1
    requires CubesTransposed(g, north) && CubesTransposed(north, west)
    requires CubesReversedTransposed(west, south) && CubesReversedTransposed(south, east)
    ensures |east| == |g| && forall y | 0 <= y < |east| :: |east[y]| == |g[0]|
    ensures forall y, x | 0 <= y < |g| && 0 <= x < |g[0]| :: east[y][x] == '#' <==> g[|g| - 1 - y][|g[0]| - 1 - x] == '#'
  {
    var r, c := |g|, |g[0]|;
    assert |north| == c && |north[0]| == r;
    assert |west| == r && |west[0]| == c;
    assert |south| == c && |south[0]| == r;
    forall y, x | 0 <= y < r && 0 <= x < c ensures east[y][x] == '#' <==> g[r - 1 - y][c - 1 - x] == '#' {
      assert east[y][x] == '#' <==> south[c - 1 - x][y] == '#';
      assert south[c - 1 - x][y] == '#' <==> west[r - 1 - y][c - 1 - x] == '#';
      assert west[r - 1 - y][c - 1 - x] == '#' <==> north[c - 1 - x][r - 1 - y] == '#';
    }
  }

  /** A spin cycle keeps the shape of a platform and every cube-shaped rock in its cell. */
  lemma SpinKeepsCubes(g: seq<string>)
    requires Rectangular(g) && IsPlatform(g) && |g| >= 1 && |g[0]| >= 1
    ensures |SpinCycle(g)| == |g| && forall y | 0 <= y < |g| :: |SpinCycle(g)[y]| == |g[0]|
    ensures forall y, x | 0 <= y < |g| && 0 <= x < |g[0]| :: SpinCycle(g)[y][x] == '#' <==> g[y][x] == '#'
  {
    var north := RollColumns(g);
    RollColumnsCubesAll(g);
    var west := RollColumns(north);
    RollColumnsCubesAll(north);
    var south := RollReversed(west);
    RollReversedCubesAll(west);
    var east := RollReversed(south);
    RollReversedCubesAll(south);
    CubesAfterFourRolls(g, north, west, south, east);
  }

  /** Rows weighted by their 1-based position: the row at index k weighs k + 1. */
  function WeightedRocks(rows: seq<string>): nat
  {
    if rows == [] then 0 else WeightedRocks(rows[..|rows| - 1]) + Rocks(rows[|rows| - 1]) * |rows|
  }

  /** `totalLoad`: the rows counted from the bottom, each rock weighing its row's number. */
  function TotalLoad(g: seq<string>): nat
  {
    WeightedRocks(Reverse(g))
  }

  /** The load read from the top: a rock in row y (0-based) weighs |g| - y. */
  function NorthLoad(g: seq<string>): nat
  {
    if g == [] then 0 else Rocks(g[0]) * |g| + NorthLoad(g[1..])
  }

  /** `totalLoad` weighs each rock by its distance to the south edge, its own row included. */
  lemma {:induction false} TotalLoadFromTop(g: seq<string>)
    ensures TotalLoad(g) == NorthLoad(g)
  {
    if g != [] {
      TotalLoadFromTop(g[1..]);
      var rev := Reverse(g);
      assert rev[..|rev| - 1] == Reverse(g[1..]);
    }
  }

  /** A single row of `k` rounded rocks over `n` empty rows loads `k * (n + 1)`. */
  lemma TopRowLoad(top: string, rest: seq<string>)
    requires forall y | 0 <= y < |rest| :: Rocks(rest[y]) == 0
    ensures TotalLoad([top] + rest) == Rocks(top) * (|rest| + 1)
  {
    TotalLoadFromTop([top] + rest);
    NoLoad(rest);
    assert ([top] + rest)[1..] == rest;
  }

  lemma {:induction false} NoLoad(rest: seq<string>)
    requires forall y | 0 <= y < |rest| :: Rocks(rest[y]) == 0
    ensures NorthLoad(rest) == 0
  {
    if rest != [] {
      NoLoad(rest[1..]);
    }
  }

  /** Each rounded rock weighs at least 1 and at most the number of rows. */
  lemma {:induction false} WeightedRocksBounds(rows: seq<string>)
    ensures TotalRocks(rows) <= WeightedRocks(rows) <= TotalRocks(rows) * |rows|
  {
    if rows != [] {
      var n := |rows| - 1;
      WeightedRocksBounds(rows[..n]);
      var r, t, w := Rocks(rows[n]), TotalRocks(rows[..n]), WeightedRocks(rows[..n]);
      assert WeightedRocks(rows) == w + r * |rows| && TotalRocks(rows) == t + r;
      BoundsStep(t, r, w, n);
    }
  }

  /** Adding a row of `r` rocks at height `n + 1` to rows whose rocks weigh between 1 and `n` each. */
  lemma BoundsStep(t: nat, r: nat, w: nat, n: nat)
    requires t <= w <= t * n
    ensures t + r <= w + r * (n + 1) <= (t + r) * (n + 1)
  {
    assert r * (n + 1) == r * n + r;
    assert (t + r) * (n + 1) == t * n + t + r * n + r;
  }

  lemma MulMonotone(a: nat, b: nat, c: nat)
    requires b <= c
    ensures a * b <= a * c
  {
    assert a * c == a * b + a * (c - b);
  }

  /** The load of a platform lies between its number of rounded rocks and that times its height. */
  lemma LoadBounds(g: seq<string>)
    ensures TotalRocks(g) <= TotalLoad(g) <= TotalRocks(g) * |g|
  {
    WeightedRocksBounds(Reverse(g));
    TotalRocksReverse(g);
  }

  /** Tilting a rectangular platform north keeps its rocks and its height, so the load bounds hold. */
  lemma NorthTiltBounds(g: seq<string>)
    requires RowsCoverFirst(g) && IsPlatform(g)
    ensures Rectangular(g) ==>
              TotalRocks(g) <= TotalLoad(Transpose(RollColumns(g))) <= TotalRocks(g) * |g|
  {
    if Rectangular(g) {
      var h := RollColumns(g);
      var north := Transpose(h);
      RollColumnsRocks(g);
      TotalRocksTranspose(h);
      LoadBounds(north);
      assert |north| <= |g|;
      MulMonotone(TotalRocks(g), |north|, |g|);
    }
  }

  /**
   * Part 1: tilt north (roll the columns towards the top) and weigh; on a rectangular platform
   * every rock weighs between 1 and the number of rows.
   */
  function NorthTiltLoad(g: seq<string>): (load: nat)
    requires RowsCoverFirst(g) && IsPlatform(g)
    ensures Rectangular(g) ==> TotalRocks(g) <= load <= TotalRocks(g) * |g|
  {
    NorthTiltBounds(g);
    TotalLoad(Transpose(RollColumns(g)))
  }

  // ---------------------------------------------------------------------------------------
  // Repeated spin cycles with cycle detection
  // ---------------------------------------------------------------------------------------

  /**
   * A spin cycle on platforms whose rows cover the first; anything else is left as it is. It
   * keeps a platform valid, and on a rectangular one keeps the number of rounded rocks.
   */
  function Spin(g: seq<string>): (h: seq<string>)
    ensures RowsCoverFirst(g) && IsPlatform(g) ==> RowsCoverFirst(h) && IsPlatform(h)
    ensures Rectangular(g) && IsPlatform(g) ==> Rectangular(h) && TotalRocks(h) == TotalRocks(g)
    ensures !(RowsCoverFirst(g) && IsPlatform(g)) ==> h == g
  {
    if RowsCoverFirst(g) && IsPlatform(g) then
      if Rectangular(g) then SpinKeepsRocks(g); SpinCycle(g) else SpinCycle(g)
    else g
  }

  /** `k` spin cycles in a row: a valid platform stays valid and a rectangular one keeps its rocks. */
  function SpinN(g: seq<string>, k: nat): (h: seq<string>)
    ensures RowsCoverFirst(g) && IsPlatform(g) ==> RowsCoverFirst(h) && IsPlatform(h)
    ensures Rectangular(g) && IsPlatform(g) ==> Rectangular(h) && TotalRocks(h) == TotalRocks(g)
  {
    if k == 0 then g else Spin(SpinN(g, k - 1))
  }

  /** `k` spin cycles are `Spin` iterated `k` times. */
  lemma {:induction false} SpinNIterates(g: seq<string>, k: nat)
    ensures SpinN(g, k) == Iterate(Spin, g, k)
  {
    if k > 0 {
      SpinNIterates(g, k - 1);
      var prev := SpinN(g, k - 1);
      assert SpinN(g, k) == Spin(prev);
      assert Iterate(Spin, g, k) == Spin(prev);
    }
  }

  /** One more spin cycle. */
  lemma SpinNStep(g: seq<string>, k: nat)
    requires RowsCoverFirst(g) && IsPlatform(g)
    ensures RowsCoverFirst(SpinN(g, k)) && IsPlatform(SpinN(g, k))
    ensures SpinN(g, k + 1) == SpinCycle(SpinN(g, k))
  {
  }

  /** The first position of `x` in `xs` (`indexOf`). */
  function IndexOf<X(==)>(xs: seq<X>, x: X): (k: nat)
    requires x in xs
    ensures k < |xs| && xs[k] == x && forall j | 0 <= j < k :: xs[j] != x
  {
    if xs[0] == x then 0 else 1 + IndexOf(xs[1..], x)
  }

  /**
   * The loop of `repeatSpinCycles`, for any step `f`: apply `f` up to `numCycles` times,
   * remembering every state; as soon as a state repeats, the answer is read off the
   * remembered cycle.
   */
  method RepeatCycles<T(==)>(f: T -> T, start: T, numCycles: int) returns (result: T)
    ensures result == Iterate(f, start, if numCycles < 0 then 0 else numCycles)
  {
    var current := start;
    var generatedStates := [current];
    var i := 1;
    while i <= numCycles
      invariant 1 <= i && (i <= numCycles + 1 || i == 1)
      invariant current == Iterate(f, start, i - 1)
      invariant generatedStates == Orbit(f, start, i)
    {
      current := f(current);
      if current in generatedStates {
        var indexOfSeen := IndexOf(generatedStates, current);
        OrbitAt(f, start, i, indexOfSeen);
        var k := indexOfSeen + (numCycles - indexOfSeen) % (i - indexOfSeen);
        OrbitPeriodic(f, start, indexOfSeen, i, numCycles, k);
        return generatedStates[k];
      }
      generatedStates := generatedStates + [current];
      i := i + 1;
    }
    return current;
  }

  /** `repeatSpinCycles`: `numCycles` spin cycles (none when `numCycles` is not positive). */
  method RepeatSpinCycles(grid: seq<string>, numCycles: int) returns (result: seq<string>)
    ensures result == SpinN(grid, if numCycles < 0 then 0 else numCycles)
  {
    result := RepeatCycles(Spin, grid, numCycles);
    SpinNIterates(grid, if numCycles < 0 then 0 else numCycles);
  }

  /** Part 2: the load after `numCycles` spin cycles. */
  method SpunLoad(grid: seq<string>, numCycles: int) returns (load: nat)
    ensures load == TotalLoad(SpinN(grid, if numCycles < 0 then 0 else numCycles))
  {
    var spun := RepeatSpinCycles(grid, numCycles);
    load := TotalLoad(spun);
  }
}
