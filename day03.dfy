/**
 * Gear ratios: an engine schematic of digits, dots and symbols. A number (a maximal run of digits)
 * is a part number when a symbol touches it, diagonals included; a `*` touching exactly two numbers
 * is a gear, whose ratio is their product.
 */
module Day03 {
  import opened Common

  /** `SYMBOLS`. */
  const Symbols: set<char> := {'#', '$', '%', '&', '*', '+', '-', '/', '=', '@'}

  predicate IsSymbol(ch: char) { ch in Symbols }

  predicate IsDigit(ch: char) { '0' <= ch <= '9' }

  /** The characters a schematic may hold. */
  predicate Allowed(ch: char) { IsSymbol(ch) || IsDigit(ch) || ch == '.' }

  datatype Engine = Engine(lines: seq<string>)

  /** The `check` set of the `Engine` initialiser: every character that is not allowed. */
  function InvalidChars(lines: seq<string>): set<char>
  {
    set i, j | 0 <= i < |lines| && 0 <= j < |lines[i]| && !Allowed(lines[i][j]) :: lines[i][j]
  }

  /** Building an `Engine`: its `require` throws (`None`) exactly when some character is not allowed. */
  function NewEngine(lines: seq<string>): (r: Option<Engine>)
    ensures r.Some? <==> forall i, j | 0 <= i < |lines| && 0 <= j < |lines[i]| :: Allowed(lines[i][j])
    ensures r.Some? ==> r.value.lines == lines
  {
    if InvalidChars(lines) == {} then Some(Engine(lines)) else None
  }

  // ---------------------------------------------------------------- numbers in a line

  /** A match of `\d+`: its column range `first..last` and the number it spells. */
  datatype Run = Run(first: nat, last: nat, value: nat)

  predicate AllDigits(line: string, from: nat, to: nat)
    requires from <= to <= |line|
  {
    forall c | from <= c < to :: IsDigit(line[c])
  }

  /** The number a string of decimal digits spells (`toInt`). */
  function DecimalValue(s: string): nat
    requires forall c | 0 <= c < |s| :: IsDigit(s[c])
  {
    if s == [] then 0
    else
      assert IsDigit(s[|s| - 1]);
      10 * DecimalValue(s[..|s| - 1]) + (s[|s| - 1] as int - '0' as int)
  }

  /** The end (exclusive) of the run of digits starting at `i`. */
  function RunEnd(line: string, i: nat): (j: nat)
    requires i <= |line|
    ensures i <= j <= |line| && AllDigits(line, i, j) && (j == |line| || !IsDigit(line[j]))
    decreases |line| - i
  {
    if i < |line| && IsDigit(line[i]) then RunEnd(line, i + 1) else i
  }

  function RunsFrom(line: string, i: nat): (r: seq<Run>)
    requires i <= |line|
    ensures forall k | 0 <= k < |r| :: i <= r[k].first <= r[k].last < |line|
    decreases |line| - i
  {
    if i == |line| then []
    else if IsDigit(line[i]) then
      var j := RunEnd(line, i);
      [Run(i, j - 1, DecimalValue(line[i..j]))] + RunsFrom(line, j)
    else RunsFrom(line, i + 1)
  }

  /** `NUMBER_REGEX.findAll(line)`: the runs of digits, left to right. */
  function Runs(line: string): (r: seq<Run>)
    ensures forall k | 0 <= k < |r| :: r[k].first <= r[k].last < |line|
  {
    RunsFrom(line, 0)
  }

  /** A maximal run of digits of the line, with the number it spells. */
  predicate IsDigitRun(line: string, run: Run)
  {
    && run.first <= run.last < |line|
    && AllDigits(line, run.first, run.last + 1)
    && (run.first == 0 || !IsDigit(line[run.first - 1]))
    && (run.last + 1 == |line| || !IsDigit(line[run.last + 1]))
    && run.value == DecimalValue(line[run.first..run.last + 1])
  }

  /** Each run found from `i` on is a maximal run of digits spelling its value. */
  lemma {:induction false} RunsFromAreDigitRuns(line: string, i: nat)
    requires i <= |line| && (i == 0 || !IsDigit(line[i - 1]))
    ensures forall run | run in RunsFrom(line, i) :: IsDigitRun(line, run)
    decreases |line| - i
  {
    if i < |line| {
      if IsDigit(line[i]) {
        var j := RunEnd(line, i);
        if j < |line| {
          assert RunsFrom(line, j) == RunsFrom(line, j + 1);
          RunsFromAreDigitRuns(line, j + 1);
        }
      } else {
        RunsFromAreDigitRuns(line, i + 1);
      }
    }
  }

  /** The runs come left to right with a gap between neighbours. */
  predicate Apart(r: seq<Run>)
  {
    forall k | 0 <= k < |r| - 1 :: r[k].last + 1 < r[k + 1].first
  }

  lemma ApartCons(x: Run, rest: seq<Run>)
    requires Apart(rest) && (rest == [] || x.last + 1 < rest[0].first)
    ensures Apart([x] + rest)
  {
    var r := [x] + rest;
    forall k | 0 <= k < |r| - 1
      ensures r[k].last + 1 < r[k + 1].first
    {
      if k > 0 {
        assert r[k] == rest[k - 1] && r[k + 1] == rest[k];
      }
    }
  }

  /** The runs found from `i` on come left to right with a gap between neighbours. */
  lemma {:induction false} RunsFromApart(line: string, i: nat)
    requires i <= |line|
    ensures Apart(RunsFrom(line, i))
    decreases |line| - i
  {
    if i < |line| {
      if IsDigit(line[i]) {
        var j := RunEnd(line, i);
        var rest := RunsFrom(line, j);
        RunsFromApart(line, j);
        if rest != [] {
          assert rest == RunsFrom(line, j + 1);
        }
        ApartCons(Run(i, j - 1, DecimalValue(line[i..j])), rest);
      } else {
        RunsFromApart(line, i + 1);
      }
    }
  }

  /** Every digit from `i` on lies in one of the runs found from `i` on. */
  lemma {:induction false} RunsFromCover(line: string, i: nat, c: nat)
    requires i <= c < |line| && IsDigit(line[c])
    ensures exists k | 0 <= k < |RunsFrom(line, i)| :: RunsFrom(line, i)[k].first <= c <= RunsFrom(line, i)[k].last
    decreases |line| - i
  {
    var r := RunsFrom(line, i);
    if IsDigit(line[i]) {
      var j := RunEnd(line, i);
      if c < j {
        assert r[0].first <= c <= r[0].last;
      } else {
        RunsFromCover(line, j, c);
        var rest := RunsFrom(line, j);
        var k :| 0 <= k < |rest| && rest[k].first <= c <= rest[k].last;
        assert r[k + 1] == rest[k];
      }
    } else {
      RunsFromCover(line, i + 1, c);
    }
  }

  /**
   * The numbers of a line are exactly its maximal runs of digits: each run is maximal and spells
   * its value, runs come left to right with a non-digit between them, and every digit is in a run.
   */
  lemma RunsMaximal(line: string)
    ensures var r := Runs(line);
            && (forall k | 0 <= k < |r| :: IsDigitRun(line, r[k]))
            && Apart(r)
            && (forall c | 0 <= c < |line| && IsDigit(line[c]) :: exists k | 0 <= k < |r| :: r[k].first <= c <= r[k].last)
  {
    assert Runs(line) == RunsFrom(line, 0);
    RunsFromAreDigitRuns(line, 0);
    RunsFromApart(line, 0);
    forall c | 0 <= c < |line| && IsDigit(line[c])
      ensures exists k | 0 <= k < |Runs(line)| :: Runs(line)[k].first <= c <= Runs(line)[k].last
    {
      RunsFromCover(line, 0, c);
    }
  }

  // ---------------------------------------------------------------- the frame around a number

  /** The cell at row `y`, column `x` exists and lies in rows lineIdx-1..lineIdx+1 and columns first-1..last+1. */
  predicate InFrame(lines: seq<string>, lineIdx: nat, run: Run, y: int, x: int)
  {
    0 <= y < |lines| && lineIdx - 1 <= y <= lineIdx + 1 && 0 <= x < |lines[y]| && run.first - 1 <= x <= run.last + 1
  }

  /** A symbol in row `y` of the frame. */
  ghost predicate SymbolInFrameRow(lines: seq<string>, lineIdx: nat, run: Run, y: int)
  {
    exists x | InFrame(lines, lineIdx, run, y, x) :: IsSymbol(lines[y][x])
  }

  /** Some symbol of the row among columns `from..to-1`. */
  predicate SymbolBetween(row: string, from: int, to: int)
  {
    exists c | from <= c < to && 0 <= c < |row| :: IsSymbol(row[c])
  }

  /** The first column of the clipped span: `left.coerceAtLeast(0)`. */
  function SpanStart(run: Run): nat
  {
    Max(run.first - 1, 0)
  }

  /** The end (exclusive) of the clipped span of a row: `(right + 1).coerceAtMost(length)`. */
  function SpanEnd(row: string, run: Run): nat
  {
    Min(run.last + 2, |row|)
  }

  /** The neighbour row's `substring(SpanStart, SpanEnd)` throws: the row ends before the span starts. */
  predicate SubstringFails(row: string, run: Run)
  {
    SpanStart(run) > SpanEnd(row, run)
  }

  /** What `isPartNumber` answers: `None` where a substring throws, otherwise whether it finds a symbol. */
  function PartNumberCheck(lines: seq<string>, lineIdx: nat, run: Run): Option<bool>
    requires lineIdx < |lines| && run.first <= run.last < |lines[lineIdx]|
  {
    var left, right := run.first - 1, run.last + 1;
    if lineIdx >= 1 && SubstringFails(lines[lineIdx - 1], run) then None
    else if lineIdx >= 1 && SymbolBetween(lines[lineIdx - 1], SpanStart(run), SpanEnd(lines[lineIdx - 1], run)) then Some(true)
    else if lineIdx + 1 < |lines| && SubstringFails(lines[lineIdx + 1], run) then None
    else if lineIdx + 1 < |lines| && SymbolBetween(lines[lineIdx + 1], SpanStart(run), SpanEnd(lines[lineIdx + 1], run)) then Some(true)
    else Some((left >= 0 && IsSymbol(lines[lineIdx][left])) || (right < |lines[lineIdx]| && IsSymbol(lines[lineIdx][right])))
  }

  /** A neighbour row ends before the column left of the number (only a ragged schematic has one). */
  predicate ShortNeighbour(lines: seq<string>, lineIdx: nat, run: Run)
  {
    (1 <= lineIdx <= |lines| && |lines[lineIdx - 1]| < run.first - 1)
    || (lineIdx + 1 < |lines| && |lines[lineIdx + 1]| < run.first - 1)
  }

  /** Scanning a neighbour row's clipped span finds a symbol exactly when that row of the frame holds one. */
  lemma NeighbourRowScan(lines: seq<string>, lineIdx: nat, run: Run, y: int)
    requires 0 <= y < |lines| && (y == lineIdx - 1 || y == lineIdx + 1)
    ensures SymbolBetween(lines[y], SpanStart(run), SpanEnd(lines[y], run)) <==> SymbolInFrameRow(lines, lineIdx, run, y)
  {
    if SymbolBetween(lines[y], SpanStart(run), SpanEnd(lines[y], run)) {
      var c :| SpanStart(run) <= c < SpanEnd(lines[y], run) && 0 <= c < |lines[y]| && IsSymbol(lines[y][c]);
      assert InFrame(lines, lineIdx, run, y, c);
    }
    if SymbolInFrameRow(lines, lineIdx, run, y) {
      var x :| InFrame(lines, lineIdx, run, y, x) && IsSymbol(lines[y][x]);
      assert SpanStart(run) <= x < SpanEnd(lines[y], run);
    }
  }

  /** In the number's own row, only the cells just left and right of the digits can hold a symbol. */
  lemma OwnRowCheck(lines: seq<string>, lineIdx: nat, run: Run)
    requires lineIdx < |lines| && run.first <= run.last < |lines[lineIdx]| && AllDigits(lines[lineIdx], run.first, run.last + 1)
    ensures ((run.first >= 1 && IsSymbol(lines[lineIdx][run.first - 1])) || (run.last + 1 < |lines[lineIdx]| && IsSymbol(lines[lineIdx][run.last + 1])))
            <==> SymbolInFrameRow(lines, lineIdx, run, lineIdx)
  {
    var row := lines[lineIdx];
    if run.first >= 1 && IsSymbol(row[run.first - 1]) {
      assert InFrame(lines, lineIdx, run, lineIdx, run.first - 1);
    }
    if run.last + 1 < |row| && IsSymbol(row[run.last + 1]) {
      assert InFrame(lines, lineIdx, run, lineIdx, run.last + 1);
    }
    assert forall c | run.first <= c <= run.last :: !IsSymbol(row[c]);
  }

  /** A symbol in the frame lies in one of its (at most) three rows. */
  lemma FrameByRows(lines: seq<string>, lineIdx: nat, run: Run)
    ensures (exists y, x | InFrame(lines, lineIdx, run, y, x) :: IsSymbol(lines[y][x]))
            <==> SymbolInFrameRow(lines, lineIdx, run, lineIdx - 1) || SymbolInFrameRow(lines, lineIdx, run, lineIdx)
                 || SymbolInFrameRow(lines, lineIdx, run, lineIdx + 1)
  {
    if exists y, x | InFrame(lines, lineIdx, run, y, x) :: IsSymbol(lines[y][x]) {
      var y, x :| InFrame(lines, lineIdx, run, y, x) && IsSymbol(lines[y][x]);
      assert SymbolInFrameRow(lines, lineIdx, run, y);
    }
  }

  /**
   * For a run of digits, `isPartNumber` says whether a symbol lies in the frame around it; it can
   * throw only when a neighbour row is too short, never on a rectangular schematic.
   */
  lemma PartNumberCheckMeaning(lines: seq<string>, lineIdx: nat, run: Run)
    requires lineIdx < |lines| && run.first <= run.last < |lines[lineIdx]| && AllDigits(lines[lineIdx], run.first, run.last + 1)
    ensures PartNumberCheck(lines, lineIdx, run).None? ==> ShortNeighbour(lines, lineIdx, run)
    ensures PartNumberCheck(lines, lineIdx, run).Some? ==>
              (PartNumberCheck(lines, lineIdx, run).value <==> exists y, x | InFrame(lines, lineIdx, run, y, x) :: IsSymbol(lines[y][x]))
  {
    if lineIdx >= 1 {
      NeighbourRowScan(lines, lineIdx, run, lineIdx - 1);
    }
    if lineIdx + 1 < |lines| {
      NeighbourRowScan(lines, lineIdx, run, lineIdx + 1);
    }
    OwnRowCheck(lines, lineIdx, run);
    FrameByRows(lines, lineIdx, run);
    assert lineIdx < 1 ==> !SymbolInFrameRow(lines, lineIdx, run, lineIdx - 1);
    assert lineIdx + 1 >= |lines| ==> !SymbolInFrameRow(lines, lineIdx, run, lineIdx + 1);
  }

  /** Whether a symbol lies among columns `from..to-1` of the row (one `for (ch in substring)` loop). */
  method ScanForSymbol(row: string, from: nat, to: nat) returns (found: bool)
    requires from <= to <= |row|
    ensures found <==> SymbolBetween(row, from, to)
  {
    for c := from to to
      invariant !SymbolBetween(row, from, c)
    {
      if IsSymbol(row[c]) {
        return true;
      }
    }
    return false;
  }

  /** `isPartNumber`: the rows above and below, clipped, then the cells left and right of the number. */
  method IsPartNumber(lines: seq<string>, lineIdx: nat, run: Run) returns (r: Option<bool>)
    requires lineIdx < |lines| && run.first <= run.last < |lines[lineIdx]|
    ensures r == PartNumberCheck(lines, lineIdx, run)
  {
    var left, right := run.first - 1, run.last + 1;
    if lineIdx >= 1 {
      var row := lines[lineIdx - 1];
      if SpanStart(run) > SpanEnd(row, run) {
        return None;
      }
      var found := ScanForSymbol(row, SpanStart(run), SpanEnd(row, run));
      if found {
        return Some(true);
      }
    }
    if lineIdx + 1 < |lines| {
      var row := lines[lineIdx + 1];
      if SpanStart(run) > SpanEnd(row, run) {
        return None;
      }
      var found := ScanForSymbol(row, SpanStart(run), SpanEnd(row, run));
      if found {
        return Some(true);
      }
    }
    r := Some((left >= 0 && IsSymbol(lines[lineIdx][left])) || (right < |lines[lineIdx]| && IsSymbol(lines[lineIdx][right])));
  }

  // ---------------------------------------------------------------- gears around a number

  /** `GearLoc`: column `x`, row `y`. */
  datatype GearLoc = GearLoc(x: int, y: int)

  /** The `*` cells among columns `lo..hi-1` of row `y`, left to right. */
  function StarsBetween(row: string, y: int, lo: nat, hi: nat): seq<GearLoc>
    requires lo < hi ==> hi <= |row|
    decreases hi
  {
    if hi <= lo then [] else StarsBetween(row, y, lo, hi - 1) + (if row[hi - 1] == '*' then [GearLoc(hi - 1, y)] else [])
  }

  /** `StarsBetween` lists exactly the `*` cells of the span. */
  lemma {:induction false} StarsBetweenExact(row: string, y: int, lo: nat, hi: nat)
    requires lo < hi ==> hi <= |row|
    ensures forall g :: g in StarsBetween(row, y, lo, hi) <==> g.y == y && lo <= g.x < hi && row[g.x] == '*'
    decreases hi
  {
    if lo < hi {
      StarsBetweenExact(row, y, lo, hi - 1);
    }
  }

  /** Locations all in row `y`, left of column `hi`, listed left to right. */
  predicate LeftToRight(r: seq<GearLoc>, y: int, hi: int)
  {
    && (forall i | 0 <= i < |r| :: r[i].y == y && r[i].x < hi)
    && (forall i, j | 0 <= i < j < |r| :: r[i].x < r[j].x)
  }

  /** `StarsBetween` lists cells of row `y` within the span, left to right. */
  lemma {:induction false} StarsBetweenOrdered(row: string, y: int, lo: nat, hi: nat)
    requires lo < hi ==> hi <= |row|
    ensures LeftToRight(StarsBetween(row, y, lo, hi), y, hi)
    decreases hi
  {
    if lo < hi {
      StarsBetweenOrdered(row, y, lo, hi - 1);
      var init := StarsBetween(row, y, lo, hi - 1);
      var r := StarsBetween(row, y, lo, hi);
      assert LeftToRight(init, y, hi - 1);
      var last := if row[hi - 1] == '*' then [GearLoc(hi - 1, y)] else [];
      assert r == init + last;
      forall i | 0 <= i < |r|
        ensures r[i].y == y && r[i].x < hi
      {
        if i < |init| {
          assert r[i] == init[i];
        }
      }
      forall i, j | 0 <= i < j < |r|
        ensures r[i].x < r[j].x
      {
        assert r[i] == init[i];
        if j < |init| {
          assert r[j] == init[j];
        } else {
          assert r[j] == GearLoc(hi - 1, y);
        }
      }
    }
  }

  /** The `*` cells of neighbour row `y` within the clipped span (none when there is no such row). */
  function RowStars(lines: seq<string>, run: Run, y: int): seq<GearLoc>
  {
    if 0 <= y < |lines| then StarsBetween(lines[y], y, SpanStart(run), SpanEnd(lines[y], run)) else []
  }

  /** The `*` cells just left and just right of the number, in that order. */
  function SideStars(lines: seq<string>, lineIdx: nat, run: Run): seq<GearLoc>
    requires lineIdx < |lines| && run.first <= run.last < |lines[lineIdx]|
  {
    var left, right := run.first - 1, run.last + 1;
    (if left >= 0 && lines[lineIdx][left] == '*' then [GearLoc(left, lineIdx)] else [])
    + (if right < |lines[lineIdx]| && lines[lineIdx][right] == '*' then [GearLoc(right, lineIdx)] else [])
  }

  /** What `findGears` returns: the `*` cells above, below, left and right, in that order. */
  function GearList(lines: seq<string>, lineIdx: nat, run: Run): seq<GearLoc>
    requires lineIdx < |lines| && run.first <= run.last < |lines[lineIdx]|
  {
    RowStars(lines, run, lineIdx - 1) + RowStars(lines, run, lineIdx + 1) + SideStars(lines, lineIdx, run)
  }

  /** A `*` in the frame around the number. */
  predicate StarInFrame(lines: seq<string>, lineIdx: nat, run: Run, g: GearLoc)
  {
    InFrame(lines, lineIdx, run, g.y, g.x) && lines[g.y][g.x] == '*'
  }

  lemma RowStarsExact(lines: seq<string>, lineIdx: nat, run: Run, y: int)
    requires y == lineIdx - 1 || y == lineIdx + 1
    ensures forall g :: g in RowStars(lines, run, y) <==> g.y == y && StarInFrame(lines, lineIdx, run, g)
  {
    if 0 <= y < |lines| {
      StarsBetweenExact(lines[y], y, SpanStart(run), SpanEnd(lines[y], run));
    }
  }

  lemma SideStarsExact(lines: seq<string>, lineIdx: nat, run: Run)
    requires lineIdx < |lines| && run.first <= run.last < |lines[lineIdx]| && AllDigits(lines[lineIdx], run.first, run.last + 1)
    ensures forall g :: g in SideStars(lines, lineIdx, run) <==> g.y == lineIdx && StarInFrame(lines, lineIdx, run, g)
    ensures |SideStars(lines, lineIdx, run)| == 2 ==> SideStars(lines, lineIdx, run)[0] != SideStars(lines, lineIdx, run)[1]
  {
    assert forall c | run.first <= c <= run.last :: lines[lineIdx][c] != '*';
  }

  /** The `*` cells of a neighbour row all lie in that row, each once. */
  lemma RowStarsOnce(lines: seq<string>, run: Run, y: int)
    ensures NoDuplicates(RowStars(lines, run, y)) && forall g | g in RowStars(lines, run, y) :: g.y == y
  {
    if 0 <= y < |lines| {
      StarsBetweenOrdered(lines[y], y, SpanStart(run), SpanEnd(lines[y], run));
      var r := RowStars(lines, run, y);
      assert LeftToRight(r, y, SpanEnd(lines[y], run));
      assert forall i | 0 <= i < |r| :: r[i].y == y;
    }
  }

  /** No location appears twice in `findGears`' list. */
  lemma GearListOnce(lines: seq<string>, lineIdx: nat, run: Run)
    requires lineIdx < |lines| && run.first <= run.last < |lines[lineIdx]|
    ensures NoDuplicates(GearList(lines, lineIdx, run))
  {
    var top, bottom, sides := RowStars(lines, run, lineIdx - 1), RowStars(lines, run, lineIdx + 1), SideStars(lines, lineIdx, run);
    RowStarsOnce(lines, run, lineIdx - 1);
    RowStarsOnce(lines, run, lineIdx + 1);
    assert forall g | g in sides :: g.y == lineIdx;
    NoDuplicatesAppend(top, bottom);
    NoDuplicatesAppend(top + bottom, sides);
  }

  /** `findGears` returns exactly the `*` cells of the frame around a run of digits, each once. */
  lemma GearListExact(lines: seq<string>, lineIdx: nat, run: Run)
    requires lineIdx < |lines| && run.first <= run.last < |lines[lineIdx]| && AllDigits(lines[lineIdx], run.first, run.last + 1)
    ensures var gears := GearList(lines, lineIdx, run);
            && (forall g :: g in gears <==> StarInFrame(lines, lineIdx, run, g))
            && (forall i, j | 0 <= i < j < |gears| :: gears[i] != gears[j])
  {
    RowStarsExact(lines, lineIdx, run, lineIdx - 1);
    RowStarsExact(lines, lineIdx, run, lineIdx + 1);
    SideStarsExact(lines, lineIdx, run);
    GearListOnce(lines, lineIdx, run);
  }

  /** A number touching a `*` is a part number, since `*` is a symbol. */
  lemma GearMakesPartNumber(lines: seq<string>, lineIdx: nat, run: Run)
    requires lineIdx < |lines| && run.first <= run.last < |lines[lineIdx]| && AllDigits(lines[lineIdx], run.first, run.last + 1)
    requires GearList(lines, lineIdx, run) != []
    ensures PartNumberCheck(lines, lineIdx, run) != Some(false)
  {
    GearListExact(lines, lineIdx, run);
    PartNumberCheckMeaning(lines, lineIdx, run);
    var g := GearList(lines, lineIdx, run)[0];
    assert StarInFrame(lines, lineIdx, run, g);
    assert IsSymbol(lines[g.y][g.x]);
  }

  /**
   * `for (i in left.coerceAtLeast(0)..right.coerceAtMost(length - 1)) if (row[i] == '*') gears.add(GearLoc(i, y))`
   * over neighbour row `y`.
   */
  method CollectStars(gears: seq<GearLoc>, lines: seq<string>, run: Run, y: nat) returns (r: seq<GearLoc>)
    requires y < |lines|
    ensures r == gears + RowStars(lines, run, y)
  {
    var row := lines[y];
    var lo, hi := Max(run.first - 1, 0), Min(run.last + 1, |row| - 1);
    r := gears;
    var i := lo;
    while i <= hi
      invariant lo <= i && (i <= hi + 1 || i == lo)
      invariant r == gears + StarsBetween(row, y, lo, i)
      decreases hi + 1 - i
    {
      if row[i] == '*' {
        r := r + [GearLoc(i, y)];
      }
      i := i + 1;
    }
    assert SpanEnd(row, run) == hi + 1;
  }

  /** `findGears`: the clipped rows above and below, then the cells left and right of the number. */
  method FindGears(lines: seq<string>, lineIdx: nat, run: Run) returns (gears: seq<GearLoc>)
    requires lineIdx < |lines| && run.first <= run.last < |lines[lineIdx]|
    ensures gears == GearList(lines, lineIdx, run)
  {
    var left, right := run.first - 1, run.last + 1;
    gears := [];
    if lineIdx >= 1 {
      gears := CollectStars(gears, lines, run, lineIdx - 1);
    }
    if lineIdx + 1 < |lines| {
      gears := CollectStars(gears, lines, run, lineIdx + 1);
    }
    ghost var rows := gears;
    assert rows == RowStars(lines, run, lineIdx - 1) + RowStars(lines, run, lineIdx + 1);
    if left >= 0 && lines[lineIdx][left] == '*' {
      gears := gears + [GearLoc(left, lineIdx)];
    }
    if right < |lines[lineIdx]| && lines[lineIdx][right] == '*' {
      gears := gears + [GearLoc(right, lineIdx)];
    }
    assert gears == rows + SideStars(lines, lineIdx, run);
  }

  // ---------------------------------------------------------------- part numbers

  /** The runs of the line, with the digits of each. */
  predicate RunsOfLine(lines: seq<string>, lineIdx: nat, runs: seq<Run>)
  {
    lineIdx < |lines| && forall k | 0 <= k < |runs| :: runs[k].first <= runs[k].last < |lines[lineIdx]| && AllDigits(lines[lineIdx], runs[k].first, runs[k].last + 1)
  }

  /** The part numbers among `runs`, in order; `None` as soon as one check throws. */
  function PartNumbersIn(lines: seq<string>, lineIdx: nat, runs: seq<Run>): Option<seq<nat>>
    requires lineIdx < |lines| && forall k | 0 <= k < |runs| :: runs[k].first <= runs[k].last < |lines[lineIdx]|
  {
    if runs == [] then Some([])
    else
      match PartNumberCheck(lines, lineIdx, runs[0])
      case None => None
      case Some(isPart) =>
        match PartNumbersIn(lines, lineIdx, runs[1..])
        case None => None
        case Some(rest) => Some((if isPart then [runs[0].value] else []) + rest)
  }

  /** `partNumbers`: line by line, the numbers found to be part numbers. */
  function PartNumbersFrom(lines: seq<string>, lineIdx: nat): Option<seq<nat>>
    requires lineIdx <= |lines|
    decreases |lines| - lineIdx
  {
    if lineIdx == |lines| then Some([])
    else
      match PartNumbersIn(lines, lineIdx, Runs(lines[lineIdx]))
      case None => None
      case Some(here) =>
        match PartNumbersFrom(lines, lineIdx + 1)
        case None => None
        case Some(rest) => Some(here + rest)
  }

  /** A symbol lies in the frame around the run. */
  ghost predicate Touched(lines: seq<string>, lineIdx: nat, run: Run)
  {
    exists y, x | InFrame(lines, lineIdx, run, y, x) :: IsSymbol(lines[y][x])
  }

  /** All rows have the same length. */
  predicate Rectangular(lines: seq<string>)
  {
    forall i | 0 <= i < |lines| :: |lines[i]| == |lines[0]|
  }

  /** The values of the runs a symbol touches, in order (the reference reading of "part number"). */
  ghost function TouchedValues(lines: seq<string>, lineIdx: nat, runs: seq<Run>): seq<nat>
  {
    if runs == [] then []
    else (if Touched(lines, lineIdx, runs[0]) then [runs[0].value] else []) + TouchedValues(lines, lineIdx, runs[1..])
  }

  lemma {:induction false} PartNumbersInTouched(lines: seq<string>, lineIdx: nat, runs: seq<Run>)
    requires RunsOfLine(lines, lineIdx, runs) && Rectangular(lines)
    ensures PartNumbersIn(lines, lineIdx, runs) == Some(TouchedValues(lines, lineIdx, runs))
  {
    if runs != [] {
      var run := runs[0];
      PartNumberCheckMeaning(lines, lineIdx, run);
      assert lineIdx >= 1 ==> |lines[lineIdx - 1]| == |lines[lineIdx]|;
      assert lineIdx + 1 < |lines| ==> |lines[lineIdx + 1]| == |lines[lineIdx]|;
      PartNumbersInTouched(lines, lineIdx, runs[1..]);
    }
  }

  /** The values of every number a symbol touches, line by line. */
  ghost function TouchedFrom(lines: seq<string>, lineIdx: nat): seq<nat>
    requires lineIdx <= |lines|
    decreases |lines| - lineIdx
  {
    if lineIdx == |lines| then [] else TouchedValues(lines, lineIdx, Runs(lines[lineIdx])) + TouchedFrom(lines, lineIdx + 1)
  }

  /**
   * On a schematic whose neighbouring rows are never much shorter (a rectangular one in
   * particular), `partNumbers` is the list of exactly those numbers a symbol touches.
   */
  lemma {:induction false} PartNumbersAreTouched(lines: seq<string>, lineIdx: nat)
    requires lineIdx <= |lines| && Rectangular(lines)
    ensures PartNumbersFrom(lines, lineIdx) == Some(TouchedFrom(lines, lineIdx))
    decreases |lines| - lineIdx
  {
    if lineIdx < |lines| {
      RunsMaximal(lines[lineIdx]);
      PartNumbersInTouched(lines, lineIdx, Runs(lines[lineIdx]));
      PartNumbersAreTouched(lines, lineIdx + 1);
    }
  }

  /** Part 1: the sum of all part numbers; `None` when the schematic is refused or a check throws. */
  function Part1(lines: seq<string>): Option<int>
  {
    match NewEngine(lines)
    case None => None
    case Some(engine) =>
      match PartNumbersFrom(engine.lines, 0)
      case None => None
      case Some(numbers) => Some(Sum(numbers))
  }

  /**
   * Part 1 is refused exactly when the schematic holds a character that is not allowed; on an
   * allowed rectangular schematic it is the sum of the numbers that a symbol touches.
   */
  lemma Part1Sums(lines: seq<string>)
    ensures Part1(lines).None? <== NewEngine(lines).None?
    ensures NewEngine(lines).Some? && Rectangular(lines) ==> Part1(lines) == Some(Sum(TouchedFrom(lines, 0)))
  {
    if Rectangular(lines) {
      PartNumbersAreTouched(lines, 0);
    }
  }

  // ---------------------------------------------------------------- gears

  datatype PartWithGears = PartWithGears(number: nat, attachedGears: seq<GearLoc>)

  /** `Gear`: the two numbers a gear touches; its `ratio` is their product. */
  datatype Gear = Gear(number1: nat, number2: nat)
  {
    function Ratio(): nat { number1 * number2 }
  }

  /** The runs of one line that touch some `*`, each with its `*` cells. */
  function PartsIn(lines: seq<string>, lineIdx: nat, runs: seq<Run>): seq<PartWithGears>
    requires lineIdx < |lines| && forall k | 0 <= k < |runs| :: runs[k].first <= runs[k].last < |lines[lineIdx]|
  {
    if runs == [] then []
    else
      var gears := GearList(lines, lineIdx, runs[0]);
      (if gears != [] then [PartWithGears(runs[0].value, gears)] else []) + PartsIn(lines, lineIdx, runs[1..])
  }

  /** `partsWithGears`, line by line. */
  function PartsFrom(lines: seq<string>, lineIdx: nat): seq<PartWithGears>
    requires lineIdx <= |lines|
    decreases |lines| - lineIdx
  {
    if lineIdx == |lines| then [] else PartsIn(lines, lineIdx, Runs(lines[lineIdx])) + PartsFrom(lines, lineIdx + 1)
  }

  /** `attachedGears.map { gear -> gear to number }`. */
  function Tagged(gears: seq<GearLoc>, number: nat): (r: seq<(GearLoc, nat)>)
    ensures |r| == |gears| && forall i | 0 <= i < |r| :: r[i] == (gears[i], number)
  {
    if gears == [] then [] else Tagged(gears[..|gears| - 1], number) + [(gears[|gears| - 1], number)]
  }

  /** The `(gear, number)` pairs of the `flatMap`, in order. */
  function GearPairs(parts: seq<PartWithGears>): (r: seq<(GearLoc, nat)>)
  {
    if parts == [] then []
    else
      var part := parts[|parts| - 1];
      GearPairs(parts[..|parts| - 1]) + Tagged(part.attachedGears, part.number)
  }

  /** The numbers paired with `g`, in order: the group `groupBy` forms for key `g`. */
  function NumbersAt(pairs: seq<(GearLoc, nat)>, g: GearLoc): seq<nat>
  {
    if pairs == [] then []
    else NumbersAt(pairs[..|pairs| - 1], g) + (if pairs[|pairs| - 1].0 == g then [pairs[|pairs| - 1].1] else [])
  }

  /** The distinct gear locations, in order of first appearance: the keys `groupBy` produces. */
  function Keys(pairs: seq<(GearLoc, nat)>): (r: seq<GearLoc>)
    ensures forall g :: g in r <==> exists i | 0 <= i < |pairs| :: pairs[i].0 == g
    ensures forall i, j | 0 <= i < j < |r| :: r[i] != r[j]
  {
    if pairs == [] then []
    else
      var before := Keys(pairs[..|pairs| - 1]);
      var g := pairs[|pairs| - 1].0;
      if g in before then before else before + [g]
  }

  /** The groups of exactly two numbers, as gears, in key order. */
  function GearsOf(pairs: seq<(GearLoc, nat)>, keys: seq<GearLoc>): seq<Gear>
  {
    if keys == [] then []
    else
      var numbers := NumbersAt(pairs, keys[0]);
      (if |numbers| == 2 then [Gear(numbers[0], numbers[1])] else []) + GearsOf(pairs, keys[1..])
  }

  /** The locations among `keys` with exactly two numbers, in order. */
  function TwoNumberKeys(pairs: seq<(GearLoc, nat)>, keys: seq<GearLoc>): (r: seq<GearLoc>)
    ensures forall g :: g in r <==> g in keys && |NumbersAt(pairs, g)| == 2
  {
    if keys == [] then []
    else (if |NumbersAt(pairs, keys[0])| == 2 then [keys[0]] else []) + TwoNumberKeys(pairs, keys[1..])
  }

  lemma {:induction false} GearsOfPairsUp(pairs: seq<(GearLoc, nat)>, keys: seq<GearLoc>)
    ensures var gears, locs := GearsOf(pairs, keys), TwoNumberKeys(pairs, keys);
            && |gears| == |locs|
            && forall k | 0 <= k < |gears| :: |NumbersAt(pairs, locs[k])| == 2
                 && gears[k] == Gear(NumbersAt(pairs, locs[k])[0], NumbersAt(pairs, locs[k])[1])
  {
    if keys != [] {
      GearsOfPairsUp(pairs, keys[1..]);
    }
  }

  lemma {:induction false} TwoNumberKeysDistinct(pairs: seq<(GearLoc, nat)>, keys: seq<GearLoc>)
    requires forall i, j | 0 <= i < j < |keys| :: keys[i] != keys[j]
    ensures var locs := TwoNumberKeys(pairs, keys);
            forall i, j | 0 <= i < j < |locs| :: locs[i] != locs[j]
  {
    if keys != [] {
      TwoNumberKeysDistinct(pairs, keys[1..]);
      var locs := TwoNumberKeys(pairs, keys);
      assert keys[0] !in keys[1..];
      assert keys[0] !in TwoNumberKeys(pairs, keys[1..]);
    }
  }

  /** A location appears among the pairs exactly when some number is paired with it. */
  lemma {:induction false} NumbersAtEmpty(pairs: seq<(GearLoc, nat)>, g: GearLoc)
    ensures NumbersAt(pairs, g) == [] <==> forall i | 0 <= i < |pairs| :: pairs[i].0 != g
  {
    if pairs != [] {
      NumbersAtEmpty(pairs[..|pairs| - 1], g);
      assert forall i | 0 <= i < |pairs| - 1 :: pairs[..|pairs| - 1][i] == pairs[i];
    }
  }

  /**
   * `gears`: one gear per distinct location paired with exactly two numbers, holding those two
   * numbers in order; `locs` lists the locations, each once, and every location with exactly two
   * numbers is among them.
   */
  lemma GearsAreTwoNumberLocations(pairs: seq<(GearLoc, nat)>)
    ensures var gears, locs := GearsOf(pairs, Keys(pairs)), TwoNumberKeys(pairs, Keys(pairs));
            && |gears| == |locs|
            && (forall i, j | 0 <= i < j < |locs| :: locs[i] != locs[j])
            && (forall g :: g in locs <==> |NumbersAt(pairs, g)| == 2)
            && forall k | 0 <= k < |gears| :: gears[k] == Gear(NumbersAt(pairs, locs[k])[0], NumbersAt(pairs, locs[k])[1])
  {
    GearsOfPairsUp(pairs, Keys(pairs));
    TwoNumberKeysDistinct(pairs, Keys(pairs));
    forall g | |NumbersAt(pairs, g)| == 2
      ensures g in Keys(pairs)
    {
      NumbersAtEmpty(pairs, g);
    }
  }

  /** The numbers of the parts whose gear list holds `g`, in order (one entry per part). */
  function PartsAt(parts: seq<PartWithGears>, g: GearLoc): seq<nat>
  {
    if parts == [] then []
    else PartsAt(parts[..|parts| - 1], g) + (if g in parts[|parts| - 1].attachedGears then [parts[|parts| - 1].number] else [])
  }

  lemma {:induction false} NumbersAtSingle(gears: seq<GearLoc>, number: nat, g: GearLoc)
    requires forall i, j | 0 <= i < j < |gears| :: gears[i] != gears[j]
    ensures NumbersAt(Tagged(gears, number), g) == if g in gears then [number] else []
    decreases |gears|
  {
    if gears != [] {
      var init := gears[..|gears| - 1];
      NumbersAtSingle(init, number, g);
      assert gears == init + [gears[|gears| - 1]];
      assert gears[|gears| - 1] !in init;
    }
  }

  lemma {:induction false} NumbersAtAppend(a: seq<(GearLoc, nat)>, b: seq<(GearLoc, nat)>, g: GearLoc)
    ensures NumbersAt(a + b, g) == NumbersAt(a, g) + NumbersAt(b, g)
    decreases |b|
  {
    if b == [] {
      assert a + b == a;
    } else {
      NumbersAtAppend(a, b[..|b| - 1], g);
      assert (a + b)[..|a + b| - 1] == a + b[..|b| - 1];
    }
  }

  /** When each part lists a gear location at most once, the group for `g` is the parts touching `g`. */
  lemma {:induction false} NumbersAtParts(parts: seq<PartWithGears>, g: GearLoc)
    requires forall p | p in parts :: forall i, j | 0 <= i < j < |p.attachedGears| :: p.attachedGears[i] != p.attachedGears[j]
    ensures NumbersAt(GearPairs(parts), g) == PartsAt(parts, g)
  {
    if parts != [] {
      var part := parts[|parts| - 1];
      NumbersAtParts(parts[..|parts| - 1], g);
      NumbersAtAppend(GearPairs(parts[..|parts| - 1]), Tagged(part.attachedGears, part.number), g);
      NumbersAtSingle(part.attachedGears, part.number, g);
    }
  }

  /** Gears are what part 2 adds up: `groupBy`, keep the groups of two, multiply. */
  function Gears(lines: seq<string>): seq<Gear>
  {
    var pairs := GearPairs(PartsFrom(lines, 0));
    GearsOf(pairs, Keys(pairs))
  }

  function Ratios(gears: seq<Gear>): (r: seq<int>)
    ensures |r| == |gears| && forall k | 0 <= k < |r| :: r[k] == gears[k].number1 * gears[k].number2
  {
    if gears == [] then [] else [gears[0].Ratio()] + Ratios(gears[1..])
  }

  /** Part 2: the sum of the gear ratios; `None` when the schematic is refused. */
  function Part2(lines: seq<string>): (r: Option<int>)
    ensures r.Some? <==> NewEngine(lines).Some?
  {
    match NewEngine(lines)
    case None => None
    case Some(engine) => Some(Sum(Ratios(Gears(engine.lines))))
  }

  /** Every part in the list carries the `*` cells of its frame, each once. */
  lemma {:induction false} PartsInDistinctGears(lines: seq<string>, lineIdx: nat, runs: seq<Run>)
    requires RunsOfLine(lines, lineIdx, runs)
    ensures forall p | p in PartsIn(lines, lineIdx, runs) :: forall i, j | 0 <= i < j < |p.attachedGears| :: p.attachedGears[i] != p.attachedGears[j]
  {
    if runs != [] {
      GearListExact(lines, lineIdx, runs[0]);
      PartsInDistinctGears(lines, lineIdx, runs[1..]);
    }
  }

  lemma {:induction false} PartsFromDistinctGears(lines: seq<string>, lineIdx: nat)
    requires lineIdx <= |lines|
    ensures forall p | p in PartsFrom(lines, lineIdx) :: forall i, j | 0 <= i < j < |p.attachedGears| :: p.attachedGears[i] != p.attachedGears[j]
    decreases |lines| - lineIdx
  {
    if lineIdx < |lines| {
      RunsMaximal(lines[lineIdx]);
      PartsInDistinctGears(lines, lineIdx, Runs(lines[lineIdx]));
      PartsFromDistinctGears(lines, lineIdx + 1);
    }
  }

  /**
   * The gears of a schematic: one per location paired with exactly two numbers, where the numbers
   * paired with a location are those of the parts listing it, one entry per number.
   */
  lemma GearsOfSchematic(lines: seq<string>, g: GearLoc)
    ensures NumbersAt(GearPairs(PartsFrom(lines, 0)), g) == PartsAt(PartsFrom(lines, 0), g)
  {
    PartsFromDistinctGears(lines, 0);
    NumbersAtParts(PartsFrom(lines, 0), g);
  }
}
