// Day 22: sand bricks falling into a stack, the bricks each one holds up,
// and how many would fall when one is disintegrated.
module Day22 {
  import opened Common

  /** A brick given by two opposite corners.  The mutable `supported` list
    * the source attaches to each brick is kept outside it, as a map from a
    * brick to the bricks resting on it (see `SupportGraph`). */
  datatype Brick = Brick(x1: int, y1: int, z1: int, x2: int, y2: int, z2: int)

  /** Corners in order, as every brick of the puzzle input is given. */
  predicate Valid(b: Brick)
  {
    0 <= b.x1 <= b.x2 && 0 <= b.y1 <= b.y2 && b.z1 <= b.z2
  }

  /** The vertical column (x, y) passes through the brick. */
  predicate Covers(b: Brick, x: int, y: int)
  {
    b.x1 <= x <= b.x2 && b.y1 <= y <= b.y2
  }

  function MoveDown(b: Brick, distance: int): (r: Brick)
    ensures r.x1 == b.x1 && r.x2 == b.x2 && r.y1 == b.y1 && r.y2 == b.y2
    ensures r.z1 == b.z1 - distance && r.z2 - r.z1 == b.z2 - b.z1
    ensures Valid(b) ==> Valid(r)
  {
    b.(z1 := b.z1 - distance, z2 := b.z2 - distance)
  }

  /** `b` rests directly on top of `c`: one level above it with overlapping
    * footprints. */
  predicate SupportedBy(b: Brick, c: Brick)
  {
    b.z1 == c.z2 + 1 && b.x1 <= c.x2 && b.x2 >= c.x1 && b.y1 <= c.y2 && b.y2 >= c.y1
  }

  /** Overlapping rectangles are the rectangles that share a column. */
  lemma SupportedByColumn(b: Brick, c: Brick)
    requires Valid(b) && Valid(c)
    ensures SupportedBy(b, c) <==>
              b.z1 == c.z2 + 1 && exists x, y :: Covers(b, x, y) && Covers(c, x, y)
  {
    if SupportedBy(b, c) {
      var x, y := Max(b.x1, c.x1), Max(b.y1, c.y1);
      assert Covers(b, x, y) && Covers(c, x, y);
    }
  }

  // ---------------------------------------------------------------- sorting

  /** Non-decreasing lowest level, the order `sorted()` gives bricks. */
  predicate SortedByZ1(bs: seq<Brick>)
  {
    forall i, j | 0 <= i < j < |bs| :: bs[i].z1 <= bs[j].z1
  }

  /** Places `b` before the first brick that is not lower than it. */
  function InsertByZ1(b: Brick, s: seq<Brick>): (r: seq<Brick>)
    ensures multiset(r) == multiset(s) + multiset{b}
    ensures |r| == |s| + 1 && forall c | c in r :: c == b || c in s
  {
    if s == [] then [b]
    else if b.z1 <= s[0].z1 then [b] + s
    else
      assert s == [s[0]] + s[1..];
      [s[0]] + InsertByZ1(b, s[1..])
  }

  lemma {:induction false} InsertSorted(b: Brick, s: seq<Brick>)
    requires SortedByZ1(s)
    ensures SortedByZ1(InsertByZ1(b, s))
  {
    if s != [] && b.z1 > s[0].z1 {
      var rest := InsertByZ1(b, s[1..]);
      InsertSorted(b, s[1..]);
      var r := [s[0]] + rest;
      assert InsertByZ1(b, s) == r;
      forall i, j | 0 <= i < j < |r|
        ensures r[i].z1 <= r[j].z1
      {
        if i == 0 {
          assert r[j] == rest[j - 1] && rest[j - 1] in rest;
          if r[j] != b {
            var k :| 0 <= k < |s[1..]| && s[1..][k] == r[j];
            assert s[k + 1] == r[j];
          }
        } else {
          assert r[i] == rest[i - 1] && r[j] == rest[j - 1];
        }
      }
    }
  }

  /** The stable sort by lowest level. */
  function SortByZ1(bs: seq<Brick>): (r: seq<Brick>)
    ensures SortedByZ1(r) && multiset(r) == multiset(bs)
    ensures forall b | b in r :: b in bs
  {
    if bs == [] then []
    else
      assert bs == [bs[0]] + bs[1..];
      InsertSorted(bs[0], SortByZ1(bs[1..]));
      InsertByZ1(bs[0], SortByZ1(bs[1..]))
  }

  // ------------------------------------------------------- the height field

  /** Largest far x and y corner over a non-empty list. */
  function MaxX2(bs: seq<Brick>): int
    requires |bs| > 0
  {
    if |bs| == 1 then bs[0].x2 else Max(MaxX2(bs[..|bs| - 1]), bs[|bs| - 1].x2)
  }

  function MaxY2(bs: seq<Brick>): int
    requires |bs| > 0
  {
    if |bs| == 1 then bs[0].y2 else Max(MaxY2(bs[..|bs| - 1]), bs[|bs| - 1].y2)
  }

  /** The two maxima are attained and bound every brick of the list. */
  lemma {:induction false} MaxCorners(bs: seq<Brick>)
    requires |bs| > 0
    ensures forall b | b in bs :: b.x2 <= MaxX2(bs) && b.y2 <= MaxY2(bs)
    ensures exists b | b in bs :: b.x2 == MaxX2(bs)
    ensures exists b | b in bs :: b.y2 == MaxY2(bs)
  {
    if |bs| > 1 {
      var init := bs[..|bs| - 1];
      MaxCorners(init);
      assert forall b | b in bs :: b in init || b == bs[|bs| - 1];
      assert forall b | b in init :: b in bs;
    }
  }

  const IntMin := -0x8000_0000
  const IntMax := 0x7fff_ffff

  /** A zeroed height field with one cell per column up to the largest far
    * corners; the row index is y and the column index x.  The smallest near
    * corners are computed and never used, as in the source. */
  method SupportingField(bricks: seq<Brick>) returns (field: array2<int>)
    requires |bricks| > 0 && forall b | b in bricks :: Valid(b)
    ensures fresh(field)
    ensures field.Length0 == MaxY2(bricks) + 1 && field.Length1 == MaxX2(bricks) + 1
    ensures forall y, x | 0 <= y < field.Length0 && 0 <= x < field.Length1 :: field[y, x] == 0
  {
    var minX, minY, maxX, maxY := IntMax, IntMax, IntMin, IntMin;
    for i := 0 to |bricks|
      invariant i == 0 ==> maxX == IntMin && maxY == IntMin
      invariant i > 0 ==> maxX == MaxX2(bricks[..i]) && maxY == MaxY2(bricks[..i])
    {
      var b := bricks[i];
      assert b in bricks;
      assert bricks[..i + 1][..i] == bricks[..i];
      minX := Min(minX, b.x1);
      minY := Min(minY, b.y1);
      maxX := Max(maxX, b.x2);
      maxY := Max(maxY, b.y2);
    }
    assert bricks[..|bricks|] == bricks;
    MaxCorners(bricks);
    assert bricks[0] in bricks;
    field := new int[maxY + 1, maxX + 1]((y, x) => 0);
  }

  /** Every column of the brick lies inside the field. */
  predicate Fits(field: array2<int>, b: Brick)
    reads {}
  {
    0 <= b.x1 <= b.x2 < field.Length1 && 0 <= b.y1 <= b.y2 < field.Length0
  }

  /** Sets the height of every column under the brick to its top level. */
  method Update(field: array2<int>, b: Brick)
    requires Fits(field, b)
    modifies field
    ensures forall y, x | 0 <= y < field.Length0 && 0 <= x < field.Length1 ::
              field[y, x] == if Covers(b, x, y) then b.z2 else old(field[y, x])
  {
    for y := b.y1 to b.y2 + 1
      invariant forall y', x | 0 <= y' < field.Length0 && 0 <= x < field.Length1 ::
                  field[y', x] == if b.y1 <= y' < y && b.x1 <= x <= b.x2 then b.z2 else old(field[y', x])
    {
      for x := b.x1 to b.x2 + 1
        invariant forall y', x' | 0 <= y' < field.Length0 && 0 <= x' < field.Length1 ::
                    field[y', x'] == if (b.y1 <= y' < y && b.x1 <= x' <= b.x2) || (y' == y && b.x1 <= x' < x)
                                     then b.z2 else old(field[y', x'])
      {
        field[y, x] := b.z2;
      }
    }
  }

  /** The highest column of `field` in row `y` between `x1` and `x2`. */
  function RowTop(field: array2<int>, y: int, x1: int, x2: int): int
    requires 0 <= y < field.Length0 && 0 <= x1 <= x2 < field.Length1
    reads field
    decreases x2 - x1
  {
    if x1 == x2 then field[y, x1] else Max(RowTop(field, y, x1, x2 - 1), field[y, x2])
  }

  /** The highest column of `field` under the brick's footprint. */
  function AreaTop(field: array2<int>, b: Brick, y2: int): int
    requires Fits(field, b) && b.y1 <= y2 <= b.y2
    reads field
    decreases y2 - b.y1
  {
    if y2 == b.y1 then RowTop(field, y2, b.x1, b.x2)
    else Max(AreaTop(field, b, y2 - 1), RowTop(field, y2, b.x1, b.x2))
  }

  /** `RowTop` is the highest of the columns it looks at. */
  lemma {:induction false} RowTopBounds(field: array2<int>, y: int, x1: int, x2: int)
    requires 0 <= y < field.Length0 && 0 <= x1 <= x2 < field.Length1
    ensures forall x | x1 <= x <= x2 :: field[y, x] <= RowTop(field, y, x1, x2)
    ensures exists x | x1 <= x <= x2 :: field[y, x] == RowTop(field, y, x1, x2)
    decreases x2 - x1
  {
    if x1 < x2 {
      RowTopBounds(field, y, x1, x2 - 1);
      var w :| x1 <= w <= x2 - 1 && field[y, w] == RowTop(field, y, x1, x2 - 1);
      if field[y, x2] <= field[y, w] {
        assert field[y, w] == RowTop(field, y, x1, x2);
      } else {
        assert field[y, x2] == RowTop(field, y, x1, x2);
      }
    } else {
      assert field[y, x1] == RowTop(field, y, x1, x2);
    }
  }

  /** `AreaTop` is the highest of the columns under the brick up to row `y2`. */
  lemma {:induction false} AreaTopBounds(field: array2<int>, b: Brick, y2: int)
    requires Fits(field, b) && b.y1 <= y2 <= b.y2
    ensures forall y, x | b.y1 <= y <= y2 && b.x1 <= x <= b.x2 :: field[y, x] <= AreaTop(field, b, y2)
    ensures exists y, x | b.y1 <= y <= y2 && b.x1 <= x <= b.x2 :: field[y, x] == AreaTop(field, b, y2)
    decreases y2 - b.y1
  {
    RowTopBounds(field, y2, b.x1, b.x2);
    if y2 > b.y1 {
      AreaTopBounds(field, b, y2 - 1);
    }
  }

  /**
   * How far the brick can drop before it meets the field: after dropping `d` levels its bottom
   * lies right above the highest column under it.
   */
  function DistanceToFall(field: array2<int>, b: Brick): (d: int)
    requires Fits(field, b)
    reads field
    ensures forall y, x | Covers(b, x, y) :: field[y, x] <= b.z1 - d - 1
    ensures exists y, x | Covers(b, x, y) :: field[y, x] == b.z1 - d - 1
  {
    AreaTopBounds(field, b, b.y2);
    b.z1 - AreaTop(field, b, b.y2) - 1
  }

  // ------------------------------------------------- settling, as values

  /** Height of column (x, y) after the bricks of `bs` have landed in order:
    * the top of the last one over it, or the ground. */
  function Surface(bs: seq<Brick>, x: int, y: int): int
  {
    if bs == [] then 0
    else if Covers(bs[|bs| - 1], x, y) then bs[|bs| - 1].z2
    else Surface(bs[..|bs| - 1], x, y)
  }

  function RowTopOf(bs: seq<Brick>, y: int, x1: int, x2: int): int
    requires x1 <= x2
    decreases x2 - x1
  {
    if x1 == x2 then Surface(bs, x1, y) else Max(RowTopOf(bs, y, x1, x2 - 1), Surface(bs, x2, y))
  }

  function AreaTopOf(bs: seq<Brick>, b: Brick, y2: int): int
    requires b.x1 <= b.x2 && b.y1 <= y2
    decreases y2 - b.y1
  {
    if y2 == b.y1 then RowTopOf(bs, y2, b.x1, b.x2)
    else Max(AreaTopOf(bs, b, y2 - 1), RowTopOf(bs, y2, b.x1, b.x2))
  }

  /** The highest landed column under the footprint of `b`. */
  function TopUnder(bs: seq<Brick>, b: Brick): int
    requires Valid(b)
  {
    AreaTopOf(bs, b, b.y2)
  }

  /** `b` dropped onto the landed bricks `prev`: it comes to rest one level
    * above the highest column under it. */
  function LandOn(prev: seq<Brick>, b: Brick): (r: Brick)
    requires Valid(b)
    ensures Valid(r) && r.z1 == TopUnder(prev, b) + 1
    ensures r.x1 == b.x1 && r.x2 == b.x2 && r.y1 == b.y1 && r.y2 == b.y2 && r.z2 - r.z1 == b.z2 - b.z1
  {
    MoveDown(b, b.z1 - TopUnder(prev, b) - 1)
  }

  /** The bricks of `bs`, dropped in order onto the ground and each other. */
  function Settled(bs: seq<Brick>): (r: seq<Brick>)
    requires forall b | b in bs :: Valid(b)
    ensures |r| == |bs|
  {
    if bs == [] then []
    else
      var b := bs[|bs| - 1];
      assert b in bs;
      var prev := Settled(bs[..|bs| - 1]);
      prev + [LandOn(prev, b)]
  }

  // ------------------------------------------- agreement of field and model

  /** The field holds the landed surface of `bs`. */
  ghost predicate Holds(field: array2<int>, bs: seq<Brick>)
    reads field
  {
    forall y, x | 0 <= y < field.Length0 && 0 <= x < field.Length1 :: field[y, x] == Surface(bs, x, y)
  }

  lemma {:induction false} RowTopAgrees(field: array2<int>, bs: seq<Brick>, y: int, x1: int, x2: int)
    requires Holds(field, bs) && 0 <= y < field.Length0 && 0 <= x1 <= x2 < field.Length1
    ensures RowTop(field, y, x1, x2) == RowTopOf(bs, y, x1, x2)
    decreases x2 - x1
  {
    if x1 < x2 {
      RowTopAgrees(field, bs, y, x1, x2 - 1);
    }
  }

  lemma {:induction false} AreaTopAgrees(field: array2<int>, bs: seq<Brick>, b: Brick, y2: int)
    requires Holds(field, bs) && Fits(field, b) && b.y1 <= y2 <= b.y2
    ensures AreaTop(field, b, y2) == AreaTopOf(bs, b, y2)
    decreases y2 - b.y1
  {
    RowTopAgrees(field, bs, y2, b.x1, b.x2);
    if y2 > b.y1 {
      AreaTopAgrees(field, bs, b, y2 - 1);
    }
  }

  /** Drops every brick in order, each as far as the field below it allows,
    * recording its new top on the field. */
  method Settle(bricks: seq<Brick>, field: array2<int>) returns (settled: seq<Brick>)
    requires forall b | b in bricks :: Valid(b) && Fits(field, b)
    requires forall y, x | 0 <= y < field.Length0 && 0 <= x < field.Length1 :: field[y, x] == 0
    modifies field
    ensures settled == Settled(bricks)
    ensures Holds(field, settled)
  {
    settled := [];
    for i := 0 to |bricks|
      invariant settled == Settled(bricks[..i])
      invariant Holds(field, settled)
    {
      var b := bricks[i];
      assert b in bricks;
      AreaTopAgrees(field, settled, b, b.y2);
      var landed := MoveDown(b, DistanceToFall(field, b));
      assert landed == LandOn(settled, b);
      Update(field, landed);
      assert bricks[..i + 1][..i] == bricks[..i];
      assert (settled + [landed])[..|settled|] == settled;
      settled := settled + [landed];
    }
    assert bricks[..|bricks|] == bricks;
  }

  // ------------------------------------------------ what settling achieves

  /** A column's height comes from the ground or from a landed brick over it. */
  lemma {:induction false} SurfaceFrom(bs: seq<Brick>, x: int, y: int) returns (j: int)
    ensures j == -1 ==> Surface(bs, x, y) == 0
    ensures j != -1 ==> 0 <= j < |bs| && Covers(bs[j], x, y) && bs[j].z2 == Surface(bs, x, y)
  {
    if bs == [] {
      j := -1;
    } else if Covers(bs[|bs| - 1], x, y) {
      j := |bs| - 1;
    } else {
      j := SurfaceFrom(bs[..|bs| - 1], x, y);
    }
  }

  lemma {:induction false} RowTopOfBounds(bs: seq<Brick>, y: int, x1: int, x2: int, x: int)
    requires x1 <= x <= x2
    ensures Surface(bs, x, y) <= RowTopOf(bs, y, x1, x2)
    decreases x2 - x1
  {
    if x < x2 {
      RowTopOfBounds(bs, y, x1, x2 - 1, x);
    }
  }

  lemma {:induction false} AreaTopOfBounds(bs: seq<Brick>, b: Brick, y2: int, x: int, y: int)
    requires b.x1 <= x <= b.x2 && b.y1 <= y <= y2
    ensures Surface(bs, x, y) <= AreaTopOf(bs, b, y2)
    decreases y2 - b.y1
  {
    if y < y2 {
      AreaTopOfBounds(bs, b, y2 - 1, x, y);
    } else {
      RowTopOfBounds(bs, y, b.x1, b.x2, x);
    }
  }

  lemma {:induction false} RowTopOfAttained(bs: seq<Brick>, y: int, x1: int, x2: int) returns (x: int)
    requires x1 <= x2
    ensures x1 <= x <= x2 && Surface(bs, x, y) == RowTopOf(bs, y, x1, x2)
    decreases x2 - x1
  {
    if x1 == x2 {
      x := x1;
    } else {
      x := RowTopOfAttained(bs, y, x1, x2 - 1);
      if Surface(bs, x2, y) >= Surface(bs, x, y) {
        x := x2;
      }
    }
  }

  lemma {:induction false} AreaTopOfAttained(bs: seq<Brick>, b: Brick, y2: int) returns (x: int, y: int)
    requires b.x1 <= b.x2 && b.y1 <= y2
    ensures b.x1 <= x <= b.x2 && b.y1 <= y <= y2 && Surface(bs, x, y) == AreaTopOf(bs, b, y2)
    decreases y2 - b.y1
  {
    var xr := RowTopOfAttained(bs, y2, b.x1, b.x2);
    if y2 == b.y1 {
      x, y := xr, y2;
    } else {
      x, y := AreaTopOfAttained(bs, b, y2 - 1);
      if Surface(bs, xr, y2) >= Surface(bs, x, y) {
        x, y := xr, y2;
      }
    }
  }

  /** The i-th landed brick is the i-th brick dropped onto the first i. */
  lemma {:induction false} SettledAt(bs: seq<Brick>, i: nat)
    requires forall b | b in bs :: Valid(b)
    requires i < |bs|
    ensures Settled(bs)[..i] == Settled(bs[..i])
    ensures Settled(bs)[i] == LandOn(Settled(bs[..i]), bs[i])
    decreases |bs|
  {
    var n := |bs| - 1;
    var init := bs[..n];
    assert bs[n] in bs;
    var prev := Settled(init);
    var last := LandOn(prev, bs[n]);
    assert Settled(bs) == prev + [last];
    assert Settled(bs)[..n] == prev;
    if i < n {
      assert forall b | b in init :: b in bs;
      SettledAt(init, i);
      assert init[..i] == bs[..i] && init[i] == bs[i];
      assert Settled(bs)[..i] == prev[..i];
      assert Settled(bs)[i] == prev[i];
    }
  }

  /** Every landed brick lies on the ground (its lowest level is 1) or
    * directly on a brick that landed before it. */
  lemma RestsOnGroundOrBrick(bs: seq<Brick>, i: nat)
    requires forall b | b in bs :: Valid(b)
    requires i < |bs|
    ensures Settled(bs)[i].z1 == 1 || exists j | 0 <= j < i :: SupportedBy(Settled(bs)[i], Settled(bs)[j])
  {
    SettledAt(bs, i);
    var prev := Settled(bs[..i]);
    var b := bs[i];
    assert b in bs;
    var x, y := AreaTopOfAttained(prev, b, b.y2);
    var j := SurfaceFrom(prev, x, y);
    if j != -1 {
      var l := Settled(bs)[i];
      assert prev[j] == Settled(bs)[j];
      assert Covers(l, x, y) && Covers(prev[j], x, y);
      assert SupportedBy(l, Settled(bs)[j]);
    }
  }

  /** On every column, the height is at least the top of every landed brick
    * over it, and never below the ground. */
  lemma {:induction false} SurfaceIsTop(bs: seq<Brick>, x: int, y: int)
    requires forall b | b in bs :: Valid(b)
    ensures Surface(Settled(bs), x, y) >= 0
    ensures forall j | 0 <= j < |bs| && Covers(Settled(bs)[j], x, y) :: Settled(bs)[j].z2 <= Surface(Settled(bs), x, y)
  {
    if bs != [] {
      var n := |bs| - 1;
      var init := bs[..n];
      assert forall b | b in init :: b in bs;
      SurfaceIsTop(init, x, y);
      SettledAt(bs, n);
      var prev := Settled(init);
      var l := Settled(bs)[n];
      var b := bs[n];
      assert Settled(bs) == prev + [l];
      AreaTopOfBounds(prev, b, b.y2, b.x1, b.y1);
      SurfaceIsTop(init, b.x1, b.y1);
      if Covers(l, x, y) {
        AreaTopOfBounds(prev, b, b.y2, x, y);
      }
    }
  }

  /** Landed bricks do not intersect: of two bricks sharing a column, the
    * earlier one lies wholly below the later one. */
  lemma NoOverlap(bs: seq<Brick>, i: nat, j: nat, x: int, y: int)
    requires forall b | b in bs :: Valid(b)
    requires j < i < |bs|
    requires Covers(Settled(bs)[i], x, y) && Covers(Settled(bs)[j], x, y)
    ensures Settled(bs)[j].z2 < Settled(bs)[i].z1
  {
    var init := bs[..i];
    assert forall b | b in init :: b in bs;
    SettledAt(bs, i);
    SurfaceIsTop(init, x, y);
    assert Settled(init)[j] == Settled(bs)[j];
    var b := bs[i];
    assert b in bs;
    AreaTopOfBounds(Settled(init), b, b.y2, x, y);
  }

  /** Every landed brick is above the ground. */
  lemma AboveGround(bs: seq<Brick>, i: nat)
    requires forall b | b in bs :: Valid(b)
    requires i < |bs|
    ensures Settled(bs)[i].z1 >= 1
  {
    var init := bs[..i];
    assert forall b | b in init :: b in bs;
    SettledAt(bs, i);
    var b := bs[i];
    assert b in bs;
    SurfaceIsTop(init, b.x1, b.y1);
    AreaTopOfBounds(Settled(init), b, b.y2, b.x1, b.y1);
  }

  // ---------------------------------------------------------------- part 1

  /** The bricks of `cs` that `b` rests on, in order. */
  function SupportersOf(b: Brick, cs: seq<Brick>): (r: seq<Brick>)
    ensures |r| <= |cs|
    ensures forall c | c in r :: c in cs && SupportedBy(b, c)
    ensures forall c | c in cs && SupportedBy(b, c) :: c in r
  {
    if cs == [] then []
    else
      var rest := SupportersOf(b, cs[1..]);
      assert forall c | c in cs :: c == cs[0] || c in cs[1..];
      if SupportedBy(b, cs[0]) then [cs[0]] + rest else rest
  }

  /** The bricks that are the only support of some brick: each brick's
    * supporters are looked for among the bricks before it. */
  function SoleSupports(bs: seq<Brick>): (r: set<Brick>)
    ensures forall c | c in r :: c in bs && exists i | 0 <= i < |bs| :: SupportedBy(bs[i], c)
  {
    SoleSupporterEarlier(bs);
    set i | 0 <= i < |bs| && |SupportersOf(bs[i], bs[..i])| == 1 :: SupportersOf(bs[i], bs[..i])[0]
  }

  /** A brick's only supporter is an earlier brick it rests on. */
  lemma SoleSupporterEarlier(bs: seq<Brick>)
    ensures forall i | 0 <= i < |bs| && |SupportersOf(bs[i], bs[..i])| == 1 ::
              SupportersOf(bs[i], bs[..i])[0] in bs && SupportedBy(bs[i], SupportersOf(bs[i], bs[..i])[0])
  {
    forall i | 0 <= i < |bs| && |SupportersOf(bs[i], bs[..i])| == 1
      ensures SupportersOf(bs[i], bs[..i])[0] in bs && SupportedBy(bs[i], SupportersOf(bs[i], bs[..i])[0])
    {
      var c := SupportersOf(bs[i], bs[..i])[0];
      assert c in SupportersOf(bs[i], bs[..i]);
      assert c in bs[..i];
    }
  }

  /** The bricks of `bs` that are not in `s`, in order. */
  function Without(bs: seq<Brick>, s: set<Brick>): (r: seq<Brick>)
    ensures |r| <= |bs|
    ensures forall c | c in r :: c in bs && c !in s
    ensures forall c | c in bs && c !in s :: c in r
  {
    if bs == [] then []
    else
      var rest := Without(bs[1..], s);
      assert forall c | c in bs :: c == bs[0] || c in bs[1..];
      if bs[0] !in s then [bs[0]] + rest else rest
  }

  /**
   * The bricks that can be taken out safely: in order, those of `bs` that are not the whole list
   * of supporters of any brick.
   */
  function Disintegratable(bs: seq<Brick>): (r: seq<Brick>)
    ensures |r| <= |bs|
    ensures forall c | c in r :: c in bs && forall i | 0 <= i < |bs| :: SupportersOf(bs[i], bs[..i]) != [c]
    ensures forall c | c in bs && (forall i | 0 <= i < |bs| :: SupportersOf(bs[i], bs[..i]) != [c]) :: c in r
  {
    SoleSupportsAll(bs);
    Without(bs, SoleSupports(bs))
  }

  /** `SoleSupportsIff` for every brick at once. */
  lemma SoleSupportsAll(bs: seq<Brick>)
    ensures forall c :: c in SoleSupports(bs) <==> exists i | 0 <= i < |bs| :: SupportersOf(bs[i], bs[..i]) == [c]
  {
    forall c
      ensures c in SoleSupports(bs) <==> exists i | 0 <= i < |bs| :: SupportersOf(bs[i], bs[..i]) == [c]
    {
      SoleSupportsIff(bs, c);
    }
  }

  /** The sole supports are the bricks that make up some brick's entire
    * list of supporters. */
  lemma SoleSupportsIff(bs: seq<Brick>, b: Brick)
    ensures b in SoleSupports(bs) <==> exists i | 0 <= i < |bs| :: SupportersOf(bs[i], bs[..i]) == [b]
  {
    if b in SoleSupports(bs) {
      var i :| 0 <= i < |bs| && |SupportersOf(bs[i], bs[..i])| == 1 && SupportersOf(bs[i], bs[..i])[0] == b;
      assert SupportersOf(bs[i], bs[..i]) == [b];
    }
    if exists i | 0 <= i < |bs| :: SupportersOf(bs[i], bs[..i]) == [b] {
      var i :| 0 <= i < |bs| && SupportersOf(bs[i], bs[..i]) == [b];
      assert SupportersOf(bs[i], bs[..i])[0] in SoleSupports(bs);
    }
  }

  /** A brick can be taken out exactly when it is no brick's only support. */
  lemma DisintegratableIff(bs: seq<Brick>, b: Brick)
    ensures b in Disintegratable(bs) <==> b in bs && forall i | 0 <= i < |bs| :: SupportersOf(bs[i], bs[..i]) != [b]
  {
    SoleSupportsIff(bs, b);
  }

  /** Once a disintegratable brick is gone, every brick it held up still
    * rests on another one. */
  lemma DisintegratableSafe(bs: seq<Brick>, b: Brick, i: nat)
    requires b in Disintegratable(bs)
    requires i < |bs| && b in SupportersOf(bs[i], bs[..i])
    ensures |SupportersOf(bs[i], bs[..i])| >= 2
  {
    assert b !in SoleSupports(bs);
    SoleSupportAt(bs, i, b);
  }

  lemma SoleSupportAt(bs: seq<Brick>, i: nat, b: Brick)
    requires i < |bs|
    ensures b in SupportersOf(bs[i], bs[..i]) && |SupportersOf(bs[i], bs[..i])| == 1 ==> b in SoleSupports(bs)
  {
    var sup := SupportersOf(bs[i], bs[..i]);
    if b in sup && |sup| == 1 {
      assert sup[0] == b;
    }
  }

  /** In a list sorted by lowest level, every brick a brick rests on comes
    * before it, so looking only at the earlier bricks misses none. */
  lemma SupportersEarlier(bs: seq<Brick>, i: nat, c: Brick)
    requires SortedByZ1(bs) && forall b | b in bs :: Valid(b)
    requires i < |bs| && c in bs && SupportedBy(bs[i], c)
    ensures c in SupportersOf(bs[i], bs[..i])
  {
    var k :| 0 <= k < |bs| && bs[k] == c;
    assert Valid(c) && c.z2 + 1 == bs[i].z1;
    assert bs[k].z1 < bs[i].z1;
    assert k < i;
    assert bs[..i][k] == c;
  }

  /** Sorts the bricks, drops them onto a fresh field, sorts the landed
    * bricks and counts those that can be taken out. */
  method Part1(bricks: seq<Brick>) returns (count: nat)
    requires |bricks| > 0 && forall b | b in bricks :: Valid(b)
    ensures count == |Disintegratable(SortByZ1(Settled(SortByZ1(bricks))))|
  {
    var sorted := SortByZ1(bricks);
    var field := SupportingField(sorted);
    MaxCorners(sorted);
    var settled := Settle(sorted, field);
    count := |Disintegratable(SortByZ1(settled))|;
  }

  // ---------------------------------------------------------------- part 2

  /** Landed bricks are all different: two equal bricks would share a
    * column and so one would lie wholly below the other. */
  lemma SettledDistinct(bs: seq<Brick>)
    requires forall b | b in bs :: Valid(b)
    ensures NoDuplicates(Settled(bs))
  {
    var r := Settled(bs);
    forall j, i | 0 <= j < i < |r|
      ensures r[j] != r[i]
    {
      SettledAt(bs, i);
      if Covers(r[j], r[i].x1, r[i].y1) {
        NoOverlap(bs, i, j, r[i].x1, r[i].y1);
      }
    }
  }

  /** The ground, as the brick of height 0 the source appends under the
    * whole field. */
  function Ground(sizeX: int, sizeY: int): (g: Brick)
    ensures g.z1 == 0 && g.z2 == 0
    ensures forall x, y | 0 <= x <= sizeX && 0 <= y <= sizeY :: Covers(g, x, y)
  {
    Brick(0, 0, 0, sizeX, sizeY, 0)
  }

  /** The ground under the field the bricks need, reaching one column past
    * it on both sides. */
  function GroundUnder(bricks: seq<Brick>): (g: Brick)
    requires |bricks| > 0
    ensures g.z1 == 0 && g.z2 == 0
    ensures forall b, x, y | b in bricks && Valid(b) && Covers(b, x, y) :: Covers(g, x, y)
  {
    MaxCorners(bricks);
    Ground(MaxX2(bricks) + 2, MaxY2(bricks) + 2)
  }

  /** The landed bricks with the ground added, sorted by lowest level. */
  function Stack(bricks: seq<Brick>): (r: seq<Brick>)
    requires |bricks| > 0 && forall b | b in bricks :: Valid(b)
    ensures |r| == |bricks| + 1 && SortedByZ1(r)
    ensures multiset(r) == multiset(Settled(SortByZ1(bricks))) + multiset{GroundUnder(SortByZ1(bricks))}
  {
    var sorted := SortByZ1(bricks);
    var all := Settled(sorted) + [GroundUnder(sorted)];
    assert |sorted| == |multiset(sorted)| == |multiset(bricks)| == |bricks|;
    assert |SortByZ1(all)| == |multiset(SortByZ1(all))| == |multiset(all)| == |all|;
    SortByZ1(all)
  }

  /** Landed bricks plus the ground, none of them repeated. */
  lemma LandedAndGroundDistinct(sorted: seq<Brick>, g: Brick)
    requires forall b | b in sorted :: Valid(b)
    requires g.z1 == 0
    ensures NoDuplicates(Settled(sorted) + [g])
  {
    var landed := Settled(sorted);
    SettledDistinct(sorted);
    forall c | c in landed
      ensures c.z1 >= 1
    {
      var i :| 0 <= i < |landed| && landed[i] == c;
      AboveGround(sorted, i);
    }
    NoDuplicatesAppend(landed, [g]);
  }

  /** In a sorted reordering of distinct bricks where only `g` is at level
    * 0 and the rest above, `g` comes first. */
  lemma LowestFirst(all: seq<Brick>, r: seq<Brick>, g: Brick)
    requires NoDuplicates(all) && multiset(r) == multiset(all) && SortedByZ1(r)
    requires g in all && g.z1 == 0 && forall c | c in all && c != g :: c.z1 >= 1
    ensures NoDuplicates(r) && |r| > 0 && r[0] == g
  {
    NoDuplicatesPermutation(all, r);
    assert g in multiset(r);
    var k :| 0 <= k < |r| && r[k] == g;
    assert r[0] in multiset(all);
    assert r[0].z1 <= r[k].z1;
  }

  /** The stack has no repeated brick, and the ground comes first. */
  lemma StackShape(bricks: seq<Brick>)
    requires |bricks| > 0 && forall b | b in bricks :: Valid(b)
    ensures NoDuplicates(Stack(bricks))
    ensures Stack(bricks)[0] == GroundUnder(SortByZ1(bricks))
  {
    var sorted := SortByZ1(bricks);
    var g := GroundUnder(sorted);
    var landed := Settled(sorted);
    LandedAndGroundDistinct(sorted, g);
    forall c | c in landed
      ensures c.z1 >= 1
    {
      var i :| 0 <= i < |landed| && landed[i] == c;
      AboveGround(sorted, i);
    }
    var all := landed + [g];
    var r := SortByZ1(all);
    assert r == Stack(bricks);
    assert g in all;
    LowestFirst(all, r, g);
  }

  /** The bricks of `cs` that rest directly on `c`, in order. */
  function SupportedOn(c: Brick, cs: seq<Brick>): (r: seq<Brick>)
    ensures forall d | d in r :: d in cs && SupportedBy(d, c)
    ensures forall d | d in cs && SupportedBy(d, c) :: d in r
  {
    if cs == [] then []
    else
      var rest := SupportedOn(c, cs[1..]);
      assert forall d | d in cs :: d == cs[0] || d in cs[1..];
      if SupportedBy(cs[0], c) then [cs[0]] + rest else rest
  }

  /** For each of the first `n` bricks, the later bricks that rest on it;
    * a repeated brick keeps the entry of its last occurrence. */
  function SupportGraph(bs: seq<Brick>, n: nat): (r: map<Brick, seq<Brick>>)
    requires n <= |bs|
    ensures forall c | c in r :: c in bs[..n]
    ensures forall c | c in bs[..n] :: c in r
    ensures forall c | c in r :: forall d | d in r[c] :: d in bs
  {
    if n == 0 then map[]
    else
      var prev := SupportGraph(bs, n - 1);
      assert forall c | c in bs[..n] :: c in bs[..n - 1] || c == bs[n - 1];
      assert forall c | c in bs[..n - 1] :: c in bs[..n];
      prev[bs[n - 1] := SupportedOn(bs[n - 1], bs[n..])]
  }

  /** With distinct bricks, every brick maps to the later bricks resting on it. */
  lemma {:induction false} SupportGraphAt(bs: seq<Brick>, n: nat, i: nat)
    requires NoDuplicates(bs) && i < n <= |bs|
    ensures SupportGraph(bs, n)[bs[i]] == SupportedOn(bs[i], bs[i + 1..])
  {
    if i < n - 1 {
      SupportGraphAt(bs, n - 1, i);
    }
  }

  /** Every brick a brick of the graph holds up is itself in the graph. */
  ghost predicate Closed(sup: map<Brick, seq<Brick>>)
  {
    forall c | c in sup :: forall d | d in sup[c] :: d in sup
  }

  /** A chain of bricks, each resting on the one before. */
  ghost predicate Path(sup: map<Brick, seq<Brick>>, p: seq<Brick>)
  {
    |p| > 0 && forall k | 0 <= k < |p| - 1 :: p[k] in sup && p[k + 1] in sup[p[k]]
  }

  /** `b` is held up from `from` through a chain that does not pass
    * through `without`. */
  ghost predicate Reaches(sup: map<Brick, seq<Brick>>, from: Brick, without: Brick, b: Brick)
  {
    exists p | Path(sup, p) && p[0] == from && p[|p| - 1] == b :: without !in p
  }

  ghost function Reach(sup: map<Brick, seq<Brick>>, from: Brick, without: Brick): set<Brick>
  {
    set b | b in sup.Keys && Reaches(sup, from, without, b)
  }

  lemma ReachStep(sup: map<Brick, seq<Brick>>, from: Brick, without: Brick, b: Brick, c: Brick)
    requires Reaches(sup, from, without, b) && b in sup && c in sup[b] && c != without
    ensures Reaches(sup, from, without, c)
  {
    var p :| Path(sup, p) && p[0] == from && p[|p| - 1] == b && without !in p;
    var q := p + [c];
    assert forall k | 0 <= k < |p| :: q[k] == p[k];
    assert Path(sup, q);
  }

  /** The invariant of the search: `visited` holds `without` and the bricks
    * counted so far, all reachable; every successor of a counted brick is
    * visited or queued. */
  ghost predicate Explored(sup: map<Brick, seq<Brick>>, from: Brick, without: Brick,
                           queue: seq<Brick>, visited: set<Brick>, count: nat)
  {
    && without in visited
    && (forall q | q in queue :: q in sup && (q == without || Reaches(sup, from, without, q)))
    && (forall v | v in visited && v != without :: v in sup && Reaches(sup, from, without, v))
    && count == |visited - {without}|
    && (forall v | v in visited && v != without :: forall c | c in sup[v] :: c in visited || c in queue)
    && (from in visited || from in queue)
  }

  lemma {:induction false} ChainVisited(sup: map<Brick, seq<Brick>>, without: Brick, visited: set<Brick>, p: seq<Brick>, k: nat)
    requires Path(sup, p) && without !in p && k < |p| && p[0] in visited
    requires forall v | v in visited && v != without && v in sup :: forall c | c in sup[v] :: c in visited
    ensures p[k] in visited
  {
    if k > 0 {
      ChainVisited(sup, without, visited, p, k - 1);
      assert p[k - 1] != without && p[k] in sup[p[k - 1]];
    }
  }

  /** With nothing left in the queue, the counted bricks are all reachable ones. */
  lemma ExploredAll(sup: map<Brick, seq<Brick>>, from: Brick, without: Brick, visited: set<Brick>, count: nat)
    requires Explored(sup, from, without, [], visited, count)
    ensures count == |Reach(sup, from, without)|
  {
    forall b | b in Reach(sup, from, without)
      ensures b in visited - {without}
    {
      var p :| Path(sup, p) && p[0] == from && p[|p| - 1] == b && without !in p;
      ChainVisited(sup, without, visited, p, |p| - 1);
    }
    assert visited - {without} == Reach(sup, from, without);
  }

  /** Counts, by a breadth-first walk from `from` up the graph, the bricks
    * that stay held up when `without` is taken out. */
  method CountReachableWithout(sup: map<Brick, seq<Brick>>, from: Brick, without: Brick) returns (count: nat)
    requires from in sup && Closed(sup)
    ensures count == |Reach(sup, from, without)|
  {
    var queue := [from];
    var visited := {without};
    count := 0;
    SearchStart(sup, from, without);
    while queue != []
      invariant Explored(sup, from, without, queue, visited, count)
      decreases |sup.Keys - visited|, |queue|
    {
      var current := queue[0];
      if current in visited {
        SearchSkip(sup, from, without, queue, visited, count);
        queue := queue[1..];
        continue;
      }
      SearchStep(sup, from, without, queue, visited, count);
      visited := visited + {current};
      queue := queue[1..] + sup[current];
      count := count + 1;
    }
    ExploredAll(sup, from, without, visited, count);
  }

  lemma SearchStart(sup: map<Brick, seq<Brick>>, from: Brick, without: Brick)
    requires from in sup
    ensures Explored(sup, from, without, [from], {without}, 0)
  {
    assert Path(sup, [from]);
    assert {without} - {without} == {};
  }

  /** Polling a brick already visited keeps the invariant. */
  lemma SearchSkip(sup: map<Brick, seq<Brick>>, from: Brick, without: Brick,
                   queue: seq<Brick>, visited: set<Brick>, count: nat)
    requires Explored(sup, from, without, queue, visited, count)
    requires queue != [] && queue[0] in visited
    ensures Explored(sup, from, without, queue[1..], visited, count)
  {
    assert forall q | q in queue :: q == queue[0] || q in queue[1..];
    assert forall q | q in queue[1..] :: q in queue;
  }

  /** Counting a newly polled brick keeps the invariant. */
  lemma SearchStep(sup: map<Brick, seq<Brick>>, from: Brick, without: Brick,
                   queue: seq<Brick>, visited: set<Brick>, count: nat)
    requires Closed(sup)
    requires Explored(sup, from, without, queue, visited, count)
    requires queue != [] && queue[0] !in visited
    ensures queue[0] in sup && |sup.Keys - (visited + {queue[0]})| < |sup.Keys - visited|
    ensures Explored(sup, from, without, queue[1..] + sup[queue[0]], visited + {queue[0]}, count + 1)
  {
    var current, rest := queue[0], queue[1..];
    assert current in queue;
    var visited', queue' := visited + {current}, rest + sup[current];
    forall c | c in sup[current]
      ensures c == without || Reaches(sup, from, without, c)
    {
      if c != without {
        ReachStep(sup, from, without, current, c);
      }
    }
    assert forall q | q in queue :: q == current || q in rest;
    assert forall q | q in rest :: q in queue;
    assert visited' - {without} == (visited - {without}) + {current};
    assert sup.Keys - visited' == (sup.Keys - visited) - {current};
  }

  /** The bricks other than `b` that lose every chain down to `ground` once
    * `b` is taken out: the ones that would fall. */
  ghost function Falling(sup: map<Brick, seq<Brick>>, ground: Brick, b: Brick): (r: set<Brick>)
    ensures r <= sup.Keys && b !in r
    ensures r * Reach(sup, ground, b) == {}
    ensures forall c | c in sup.Keys && c != b :: c in r || c in Reach(sup, ground, b)
  {
    set c | c in sup.Keys && c != b && !Reaches(sup, ground, b, c)
  }

  /** The bricks still held up and the falling ones share out all others. */
  lemma FallingCount(sup: map<Brick, seq<Brick>>, ground: Brick, b: Brick)
    requires b in sup
    ensures |Falling(sup, ground, b)| == |sup.Keys| - 1 - |Reach(sup, ground, b)|
  {
    var held, falling := Reach(sup, ground, b), Falling(sup, ground, b);
    assert b !in held;
    assert sup.Keys - {b} == held + falling;
    assert held * falling == {};
  }

  /** A list of distinct bricks has as many elements as its set. */
  lemma {:induction false} DistinctCount(bs: seq<Brick>)
    requires NoDuplicates(bs)
    ensures |set c | c in bs| == |bs|
  {
    if bs != [] {
      var init := bs[..|bs| - 1];
      DistinctCount(init);
      assert (set c | c in bs) == (set c | c in init) + {bs[|bs| - 1]};
    }
  }

  /** Over the bricks after the first (the ground), the number of other
    * bricks that would fall if that one were taken out. */
  ghost function FallingTotal(bs: seq<Brick>, n: nat): int
    requires 1 <= n <= |bs|
  {
    if n == 1 then 0
    else FallingTotal(bs, n - 1) + |Falling(SupportGraph(bs, |bs|), bs[0], bs[n - 1])|
  }

  /** Builds the support graph and adds up, for each brick but the first,
    * how many bricks the first no longer holds up without it. */
  method NumOfBricksThatWouldFall(bs: seq<Brick>) returns (total: int)
    requires |bs| > 0 && NoDuplicates(bs)
    ensures total == FallingTotal(bs, |bs|)
  {
    var sup := SupportGraph(bs, |bs|);
    assert bs[..|bs|] == bs;
    assert sup.Keys == set c | c in bs;
    DistinctCount(bs);
    total := 0;
    for i := 1 to |bs|
      invariant total == FallingTotal(bs, i)
    {
      var held := CountReachableWithout(sup, bs[0], bs[i]);
      FallingCount(sup, bs[0], bs[i]);
      total := total + (|bs| - 1 - held);
    }
  }

  /** Sorts the bricks, drops them onto a fresh field, adds the ground under
    * the whole field and sums the falling counts. */
  method Part2(bricks: seq<Brick>) returns (total: int)
    requires |bricks| > 0 && forall b | b in bricks :: Valid(b)
    ensures NoDuplicates(Stack(bricks)) && total == FallingTotal(Stack(bricks), |Stack(bricks)|)
  {
    var sorted := SortByZ1(bricks);
    var field := SupportingField(sorted);
    MaxCorners(sorted);
    var settled := Settle(sorted, field);
    var ground := Ground(field.Length1 + 1, field.Length0 + 1);
    assert ground == GroundUnder(sorted);
    var stack := SortByZ1(settled + [ground]);
    assert stack == Stack(bricks);
    StackShape(bricks);
    total := NumOfBricksThatWouldFall(stack);
  }
}
