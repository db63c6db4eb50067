/**
 * Lavaduct lagoon: a dig plan of straight trenches is turned into the corners of the lagoon's outer
 * boundary, and the lagoon's volume is the shoelace area of that polygon.
 */
module Day18 {
  import opened Common

  datatype Direction = Right | Down | Left | Up

  /** The position in `Direction.entries`: clockwise order starting to the right. */
  function Ordinal(d: Direction): (n: nat)
    ensures n < 4
  {
    match d
    case Right => 0
    case Down => 1
    case Left => 2
    case Up => 3
  }

  /** `Direction.entries[i]`. */
  function Entry(i: nat): (d: Direction)
    requires i < 4
    ensures Ordinal(d) == i
  {
    if i == 0 then Right else if i == 1 then Down else if i == 2 then Left else Up
  }

  /** The direction a quarter turn clockwise from `d`. */
  function Clockwise(d: Direction): Direction
  {
    match d
    case Right => Down
    case Down => Left
    case Left => Up
    case Up => Right
  }

  function Name(d: Direction): string
  {
    match d
    case Right => "RIGHT"
    case Down => "DOWN"
    case Left => "LEFT"
    case Up => "UP"
  }

  datatype DigStep = DigStep(dir: Direction, length: int)

  // ---- parsing ----------------------------------------------------------------------------------

  /** `split(c)`: the pieces between the occurrences of `c`, empty pieces included. */
  function Split(s: string, c: char): (parts: seq<string>)
    ensures |parts| >= 1
    ensures forall k | 0 <= k < |parts| :: c !in parts[k]
  {
    if s == [] then [""]
    else
      var rest := Split(s[1..], c);
      if s[0] == c then [""] + rest else [[s[0]] + rest[0]] + rest[1..]
  }

  /** Joining the pieces with `c` gives the string back. */
  function Join(parts: seq<string>, c: char): string
    requires |parts| >= 1
  {
    if |parts| == 1 then parts[0] else parts[0] + [c] + Join(parts[1..], c)
  }

  lemma {:induction false} SplitJoin(s: string, c: char)
    ensures Join(Split(s, c), c) == s
  {
    if s != [] {
      SplitJoin(s[1..], c);
      var rest := Split(s[1..], c);
      if s[0] != c {
        var parts := Split(s, c);
        assert parts[1..] == rest[1..];
        if |rest| > 1 {
          assert Join(rest, c) == rest[0] + [c] + Join(rest[1..], c);
        }
      }
    }
  }

  predicate IsPrefix(p: string, s: string)
  {
    |p| <= |s| && forall i | 0 <= i < |p| :: p[i] == s[i]
  }

  /** `Direction.entries.first { it.name.startsWith(prefix) }`; `None` where `first` throws. */
  function FirstNamed(prefix: string): (r: Option<Direction>)
    ensures r.Some? ==> IsPrefix(prefix, Name(r.value))
    ensures r.Some? ==> forall i | 0 <= i < Ordinal(r.value) :: !IsPrefix(prefix, Name(Entry(i)))
    ensures r.None? ==> forall i | 0 <= i < 4 :: !IsPrefix(prefix, Name(Entry(i)))
  {
    if IsPrefix(prefix, "RIGHT") then Some(Right)
    else if IsPrefix(prefix, "DOWN") then Some(Down)
    else if IsPrefix(prefix, "LEFT") then Some(Left)
    else if IsPrefix(prefix, "UP") then Some(Up)
    else None
  }

  /** The plan's letters name the four directions. */
  lemma LettersName()
    ensures FirstNamed("R") == Some(Right) && FirstNamed("D") == Some(Down)
    ensures FirstNamed("L") == Some(Left) && FirstNamed("U") == Some(Up)
    ensures FirstNamed("X") == None
  {
    assert "RIGHT"[0] == 'R' && "DOWN"[0] == 'D' && "LEFT"[0] == 'L' && "UP"[0] == 'U';
  }

  /** The value of `ch` as a digit in base `radix` (`0-9`, then letters of either case), if it is one. */
  function DigitIn(ch: char, radix: nat): (r: Option<nat>)
    ensures r.Some? ==> r.value < radix
  {
    var v: int :=
      if '0' <= ch <= '9' then ch as int - '0' as int
      else if 'a' <= ch <= 'z' then ch as int - 'a' as int + 10
      else if 'A' <= ch <= 'Z' then ch as int - 'A' as int + 10
      else -1;
    if 0 <= v < radix then Some(v) else None
  }

  /** The value of a digit string in base `radix`; `None` if some character is not a digit. */
  function DigitsValue(digits: string, radix: nat): (r: Option<nat>)
  {
    if digits == [] then Some(0)
    else
      match (DigitsValue(digits[..|digits| - 1], radix), DigitIn(digits[|digits| - 1], radix))
      case (Some(high), Some(low)) => Some(high * radix + low)
      case _ => None
  }

  const IntMin: int := -0x8000_0000
  const IntMax: int := 0x7FFF_FFFF

  /**
   * `String.toInt(radix)`: an optional sign, then at least one digit of the radix, within the
   * 32-bit range; `None` where the conversion throws.
   */
  function ParseInt(s: string, radix: nat): (r: Option<int>)
    ensures r.Some? ==> IntMin <= r.value <= IntMax
    ensures s == [] ==> r.None?
  {
    var signed := s != [] && (s[0] == '-' || s[0] == '+');
    var digits := if signed then s[1..] else s;
    if digits == [] then None
    else
      match DigitsValue(digits, radix)
      case None => None
      case Some(v) =>
        var value: int := if s[0] == '-' then -(v as int) else v;
        if IntMin <= value <= IntMax then Some(value) else None
  }

  /** `parseDigStep`: the direction named by the first word and the decimal length in the second. */
  function ParseDigStep(line: string): (r: Option<DigStep>)
    ensures r.Some? ==> var words := Split(line, ' ');
                        |words| >= 2 && FirstNamed(words[0]) == Some(r.value.dir) && ParseInt(words[1], 10) == Some(r.value.length)
    ensures |Split(line, ' ')| < 2 ==> r.None?
  {
    var words := Split(line, ' ');
    if |words| < 2 then None
    else
      match (FirstNamed(words[0]), ParseInt(words[1], 10))
      case (Some(dir), Some(length)) => Some(DigStep(dir, length))
      case _ => None
  }

  /** `substringAfter(c)`: what follows the first `c`, or the whole string when there is none. */
  function SubstringAfter(s: string, c: char): (r: string)
    ensures c !in s ==> r == s
    ensures c in s ==> exists k | 0 <= k < |s| :: s[k] == c && c !in s[..k] && r == s[k + 1..]
  {
    if s == [] then s
    else if s[0] == c then s[1..]
    else
      var r := SubstringAfter(s[1..], c);
      if c in s[1..] then
        var k :| 0 <= k < |s[1..]| && s[1..][k] == c && c !in s[1..][..k] && r == s[1..][k + 1..];
        assert s[k + 1] == c && s[..k + 1] == [s[0]] + s[1..][..k] && r == s[k + 2..];
        r
      else
        s
  }

  /**
   * `parseDigStepFixed`: after the first '#', five hexadecimal digits give the length and the
   * sixth character, a decimal digit, indexes RIGHT, DOWN, LEFT, UP. It fails (`None`) when the
   * code is too short, a digit does not parse, or the direction code is above 3.
   */
  function ParseDigStepFixed(line: string): (r: Option<DigStep>)
    ensures var code := SubstringAfter(line, '#');
            r.Some? <==> && |code| >= 6 && ParseInt(code[..5], 16).Some?
                         && DigitIn(code[5], 10).Some? && DigitIn(code[5], 10).value <= 3
    ensures r.Some? ==> var code := SubstringAfter(line, '#');
                        r.value == DigStep(Entry(DigitIn(code[5], 10).value), ParseInt(code[..5], 16).value)
  {
    var code := SubstringAfter(line, '#');
    if |code| < 5 then None
    else
      match ParseInt(code[..5], 16)
      case None => None
      case Some(length) =>
        if |code| < 6 then None
        else
          match DigitIn(code[5], 10)
          case None => None
          case Some(dirCode) => if dirCode <= 3 then Some(DigStep(Entry(dirCode), length)) else None
  }

  lemma HexExample(code: string)
    requires code == "70c71"
    ensures DigitsValue(code, 16) == Some(461937)
  {
    assert code[..4][..3] == code[..3] && code[..3][..2] == code[..2] && code[..2][..1] == code[..1];
    assert code[..5] == code;
    assert DigitIn('c', 16) == Some(12) && DigitIn('7', 16) == Some(7) && DigitIn('1', 16) == Some(1);
    assert code[0] == '7' && code[1] == '0' && code[2] == 'c' && code[3] == '7' && code[4] == '1';
    assert DigitsValue(code[..1], 16) == Some(7);
    assert DigitsValue(code[..2], 16) == Some(112);
    assert DigitsValue(code[..3], 16) == Some(1804);
    assert DigitsValue(code[..4], 16) == Some(28871);
  }

  /** The text after the first `c` at `k` is the text after `k`. */
  lemma SubstringAfterAt(s: string, c: char, k: nat)
    requires k < |s| && s[k] == c && c !in s[..k]
    ensures SubstringAfter(s, c) == s[k + 1..]
  {
    assert c in s;
    var j :| 0 <= j < |s| && s[j] == c && c !in s[..j] && SubstringAfter(s, c) == s[j + 1..];
  }

  lemma CodeExample(line: string)
    requires line == "R 6 (#70c710)"
    ensures SubstringAfter(line, '#') == "70c710)"
  {
    assert line[..5] == "R 6 (" && line[5] == '#' && line[6..] == "70c710)";
    SubstringAfterAt(line, '#', 5);
  }

  lemma HexLengthExample(code: string)
    requires code == "70c710)"
    ensures ParseInt(code[..5], 16) == Some(461937)
  {
    assert code[..5] == "70c71";
    HexExample(code[..5]);
  }

  /** The first step of the example: `#70c710` is R 461937. */
  lemma FixedExample(line: string)
    requires line == "R 6 (#70c710)"
    ensures ParseDigStepFixed(line) == Some(DigStep(Right, 461937))
  {
    CodeExample(line);
    var code := SubstringAfter(line, '#');
    HexLengthExample(code);
    assert |code| >= 6 && code[5] == '0';
    RightStep(line, 461937);
  }

  /** A code whose sixth character is `0` gives a step to the right, its length read from the first five. */
  lemma RightStep(line: string, length: nat)
    requires var code := SubstringAfter(line, '#');
             |code| >= 6 && ParseInt(code[..5], 16) == Some(length) && code[5] == '0'
    ensures ParseDigStepFixed(line) == Some(DigStep(Right, length))
  {
  }

  // ---- from steps to corners --------------------------------------------------------------------

  /**
   * `isInnerAt`: the turn into step `idx` from the step before it (the last one, for the first
   * step) is not a clockwise quarter turn.
   */
  predicate IsInnerAt(steps: seq<DigStep>, idx: nat)
    requires idx < |steps|
  {
    var prev := if idx > 0 then idx - 1 else |steps| - 1;
    (Ordinal(steps[prev].dir) + 1) % 4 != Ordinal(steps[idx].dir)
  }

  /** A corner is outer exactly when the plan turns clockwise there. */
  lemma OuterIffClockwise(steps: seq<DigStep>, idx: nat)
    requires idx < |steps|
    ensures var prev := if idx > 0 then idx - 1 else |steps| - 1;
            !IsInnerAt(steps, idx) <==> steps[idx].dir == Clockwise(steps[prev].dir)
  {
  }

  /** The correction to a step's length: one more for two outer corners, one less for two inner ones. */
  function Inc(steps: seq<DigStep>, idx: nat): (inc: int)
    requires idx < |steps|
    ensures -1 <= inc <= 1
    ensures inc == 1 <==> !IsInnerAt(steps, idx) && !IsInnerAt(steps, if idx + 1 < |steps| then idx + 1 else 0)
  {
    var nextIdx := if idx + 1 < |steps| then idx + 1 else 0;
    1 - (if IsInnerAt(steps, idx) then 1 else 0) - (if IsInnerAt(steps, nextIdx) then 1 else 0)
  }

  datatype Point = Point(x: int, y: int)

  /** `p` moved `dist` along `dir` (y grows downwards). */
  function Move(p: Point, dir: Direction, dist: int): (q: Point)
    ensures dir == Right || dir == Left ==> q.y == p.y
    ensures dir == Down || dir == Up ==> q.x == p.x
    ensures Abs(q.x - p.x) + Abs(q.y - p.y) == Abs(dist)
  {
    match dir
    case Right => Point(p.x + dist, p.y)
    case Down => Point(p.x, p.y + dist)
    case Left => Point(p.x - dist, p.y)
    case Up => Point(p.x, p.y - dist)
  }

  /** The corners from step `i` on, when step `i` starts at `p`. */
  function PointsFrom(steps: seq<DigStep>, i: nat, p: Point): (pts: seq<Point>)
    requires i <= |steps|
    ensures |pts| == |steps| - i
    decreases |steps| - i
  {
    if i == |steps| then []
    else [p] + PointsFrom(steps, i + 1, Move(p, steps[i].dir, steps[i].length + Inc(steps, i)))
  }

  /** The corners of the boundary, one per step, starting at the origin. */
  function Points(steps: seq<DigStep>): (pts: seq<Point>)
  {
    PointsFrom(steps, 0, Point(0, 0))
  }

  lemma {:induction false} PointsFromStep(steps: seq<DigStep>, i: nat, p: Point, k: nat)
    requires i <= |steps| && i <= k && k + 1 < |steps|
    ensures var pts := PointsFrom(steps, i, p);
            pts[k + 1 - i] == Move(pts[k - i], steps[k].dir, steps[k].length + Inc(steps, k))
    decreases |steps| - i
  {
    if k > i {
      PointsFromStep(steps, i + 1, Move(p, steps[i].dir, steps[i].length + Inc(steps, i)), k);
    }
  }

  /**
   * `toPoints`: one point per step, the first at the origin, each next one reached by moving
   * along the step's direction by its length corrected by `Inc`.
   */
  lemma PointsShape(steps: seq<DigStep>)
    ensures |Points(steps)| == |steps|
    ensures steps != [] ==> Points(steps)[0] == Point(0, 0)
    ensures forall k | 0 <= k < |steps| - 1 ::
              Points(steps)[k + 1] == Move(Points(steps)[k], steps[k].dir, steps[k].length + Inc(steps, k))
  {
    forall k | 0 <= k < |steps| - 1
      ensures Points(steps)[k + 1] == Move(Points(steps)[k], steps[k].dir, steps[k].length + Inc(steps, k))
    {
      PointsFromStep(steps, 0, Point(0, 0), k);
    }
  }

  /** `toPoints`, with `x` and `y` updated step by step. */
  method ToPoints(steps: seq<DigStep>) returns (pts: seq<Point>)
    ensures pts == Points(steps)
  {
    var x, y := 0, 0;
    pts := [];
    var idx := 0;
    while idx < |steps|
      invariant 0 <= idx <= |steps|
      invariant pts + PointsFrom(steps, idx, Point(x, y)) == Points(steps)
    {
      var nextIdx := if idx + 1 < |steps| then idx + 1 else 0;
      var inc := 1 - (if IsInnerAt(steps, idx) then 1 else 0) - (if IsInnerAt(steps, nextIdx) then 1 else 0);
      var prevX, prevY := x, y;
      match steps[idx].dir {
        case Right => x := x + steps[idx].length + inc;
        case Down => y := y + steps[idx].length + inc;
        case Left => x := x - (steps[idx].length + inc);
        case Up => y := y - (steps[idx].length + inc);
      }
      assert Point(x, y) == Move(Point(prevX, prevY), steps[idx].dir, steps[idx].length + Inc(steps, idx));
      assert PointsFrom(steps, idx, Point(prevX, prevY)) == [Point(prevX, prevY)] + PointsFrom(steps, idx + 1, Point(x, y));
      ConcatAssociative(pts, [Point(prevX, prevY)], PointsFrom(steps, idx + 1, Point(x, y)));
      pts := pts + [Point(prevX, prevY)];
      idx := idx + 1;
    }
  }

  // ---- area -------------------------------------------------------------------------------------

  /** The index after `i`, wrapping round to 0. */
  function Next(n: nat, i: nat): nat
  {
    if i + 1 < n then i + 1 else 0
  }

  /** The shoelace term of corner `i` and the corner after it. */
  function Term(points: seq<Point>, i: nat): int
    requires i < |points|
  {
    var j := Next(|points|, i);
    points[j].x * points[i].y - points[i].x * points[j].y
  }

  /** The terms of the corners before `i`. */
  function ShoelacePrefix(points: seq<Point>, i: nat): int
    requires i <= |points|
  {
    if i == 0 then 0 else ShoelacePrefix(points, i - 1) + Term(points, i - 1)
  }

  /** Twice the signed area of the polygon. */
  function Shoelace(points: seq<Point>): int
  {
    ShoelacePrefix(points, |points|)
  }

  /** Kotlin's `Long` division by 2, which truncates toward zero. */
  function Half(s: int): (h: int)
    ensures Abs(h) == Abs(s) / 2
  {
    if s >= 0 then s / 2 else -((-s) / 2)
  }

  /** The area: the absolute value of half the shoelace sum. */
  function AreaOf(points: seq<Point>): (a: nat)
    ensures a == Abs(Shoelace(points)) / 2
  {
    Abs(Half(Shoelace(points)))
  }

  /** `area`: the shoelace sum accumulated over every corner and its successor. */
  method Area(points: seq<Point>) returns (a: int)
    ensures a == AreaOf(points)
  {
    var sum := 0;
    for i := 0 to |points|
      invariant sum == ShoelacePrefix(points, i)
    {
      var j := if i + 1 < |points| then i + 1 else 0;
      sum := sum + (points[j].x * points[i].y - points[i].x * points[j].y);
    }
    a := if sum >= 0 then sum / 2 else -((-sum) / 2);
    a := if a < 0 then -a else a;
  }

  /** A polygon of fewer than three corners encloses nothing. */
  lemma AreaOfDegenerate(points: seq<Point>)
    requires |points| < 3
    ensures AreaOf(points) == 0
  {
    if |points| >= 1 {
      assert ShoelacePrefix(points, 1) == Term(points, 0);
    }
    if |points| == 2 {
      assert Shoelace(points) == Term(points, 0) + Term(points, 1);
      assert Term(points, 0) == -Term(points, 1);
    } else if |points| == 1 {
      assert Term(points, 0) == 0;
    }
  }

  /** The corners listed from the second one on, with the first one moved to the end. */
  function Rotate(points: seq<Point>): seq<Point>
    requires points != []
  {
    points[1..] + [points[0]]
  }

  lemma {:induction false} RotatePrefix(points: seq<Point>, m: nat)
    requires |points| >= 2 && m < |points|
    ensures ShoelacePrefix(Rotate(points), m) == ShoelacePrefix(points, m + 1) - Term(points, 0)
  {
    if m > 0 {
      RotatePrefix(points, m - 1);
      var q := Rotate(points);
      assert Term(q, m - 1) == Term(points, m);
    }
  }

  /** The area does not depend on which corner the list starts from. */
  lemma AreaRotationInvariant(points: seq<Point>)
    requires points != []
    ensures AreaOf(Rotate(points)) == AreaOf(points)
  {
    var n := |points|;
    if n >= 2 {
      var q := Rotate(points);
      RotatePrefix(points, n - 1);
      assert Term(q, n - 1) == Term(points, 0);
      assert Shoelace(q) == ShoelacePrefix(q, n - 1) + Term(q, n - 1);
    } else {
      assert Rotate(points) == points;
    }
  }

  /** The plan of a rectangle `a` wide and `b` high, dug clockwise from its top-left corner. */
  function RectanglePlan(a: nat, b: nat): seq<DigStep>
  {
    [DigStep(Right, a), DigStep(Down, b), DigStep(Left, a), DigStep(Up, b)]
  }

  /** Such a plan turns clockwise at every corner, so each side is extended by one. */
  lemma RectangleCorners(a: nat, b: nat)
    ensures Points(RectanglePlan(a, b)) == [Point(0, 0), Point(a + 1, 0), Point(a + 1, b + 1), Point(0, b + 1)]
  {
    var plan := RectanglePlan(a, b);
    assert !IsInnerAt(plan, 0) && !IsInnerAt(plan, 1) && !IsInnerAt(plan, 2) && !IsInnerAt(plan, 3);
    assert Inc(plan, 0) == 1 && Inc(plan, 1) == 1 && Inc(plan, 2) == 1 && Inc(plan, 3) == 1;
    var p1, p2, p3 := Point(a + 1, 0), Point(a + 1, b + 1), Point(0, b + 1);
    assert PointsFrom(plan, 3, p3) == [p3];
    assert PointsFrom(plan, 2, p2) == [p2, p3];
    assert PointsFrom(plan, 1, p1) == [p1, p2, p3];
  }

  /** The area of a rectangle's corners, listed clockwise. */
  lemma RectangleArea(w: int, h: int)
    requires w >= 0 && h >= 0
    ensures AreaOf([Point(0, 0), Point(w, 0), Point(w, h), Point(0, h)]) == w * h
  {
    var pts := [Point(0, 0), Point(w, 0), Point(w, h), Point(0, h)];
    assert Term(pts, 0) == 0 && Term(pts, 3) == 0;
    assert Term(pts, 1) == -(w * h) && Term(pts, 2) == -(w * h);
    assert ShoelacePrefix(pts, 1) == 0;
    assert ShoelacePrefix(pts, 2) == Term(pts, 1);
    assert ShoelacePrefix(pts, 3) == -2 * (w * h);
    assert Shoelace(pts) == -2 * (w * h);
  }

  /** So the lagoon of a rectangular plan counts the trench's own cells: (a + 1) * (b + 1). */
  lemma ClockwiseRectangle(a: nat, b: nat)
    ensures AreaOf(Points(RectanglePlan(a, b))) == (a + 1) * (b + 1)
  {
    RectangleCorners(a, b);
    RectangleArea(a + 1, b + 1);
  }

  /** Every line parses, or the whole plan fails. */
  function ParseAll(lines: seq<string>, parse: string -> Option<DigStep>): (r: Option<seq<DigStep>>)
    ensures r.Some? ==> |r.value| == |lines|
    ensures r.Some? ==> forall k | 0 <= k < |lines| :: parse(lines[k]) == Some(r.value[k])
  {
    if lines == [] then Some([])
    else
      match (ParseAll(lines[..|lines| - 1], parse), parse(lines[|lines| - 1]))
      case (Some(init), Some(last)) => Some(init + [last])
      case _ => None
  }

  /** `part1`: the lagoon of the plan as written. */
  function Part1(input: seq<string>): Option<nat>
  {
    match ParseAll(input, ParseDigStep)
    case Some(steps) => Some(AreaOf(Points(steps)))
    case None => None
  }

  /** `part2`: the lagoon of the plan decoded from the colour codes. */
  function Part2(input: seq<string>): Option<nat>
  {
    match ParseAll(input, ParseDigStepFixed)
    case Some(steps) => Some(AreaOf(Points(steps)))
    case None => None
  }
}
