/**
 * Trebuchet?!: each calibration line's value is its first digit followed by its last digit;
 * in part 2 the digits may also be spelled out ("one" .. "nine"), overlapping words included.
 */
module Day01 {
  import opened Common

  predicate IsDigit(c: char) { '0' <= c <= '9' }

  function DigitValue(c: char): (d: nat)
    requires IsDigit(c)
    ensures d <= 9
  {
    c as int - '0' as int
  }

  predicate HasDigit(line: string)
  {
    exists i | 0 <= i < |line| :: IsDigit(line[i])
  }

  /** The first digit of the line, read from the front. */
  function FirstDigit(line: string): (c: char)
    requires HasDigit(line)
    ensures IsDigit(c)
    ensures exists i | 0 <= i < |line| :: line[i] == c && forall k | 0 <= k < i :: !IsDigit(line[k])
  {
    if IsDigit(line[0]) then line[0]
    else
      assert HasDigit(line[1..]) by {
        var i :| 0 <= i < |line| && IsDigit(line[i]);
        assert line[1..][i - 1] == line[i];
      }
      var c := FirstDigit(line[1..]);
      var i :| 0 <= i < |line[1..]| && line[1..][i] == c && forall k | 0 <= k < i :: !IsDigit(line[1..][k]);
      assert line[i + 1] == c && forall k | 0 <= k < i + 1 :: !IsDigit(line[k]) by {
        forall k | 0 <= k < i + 1 ensures !IsDigit(line[k]) {
          if k > 0 {
            assert line[k] == line[1..][k - 1];
          }
        }
      }
      c
  }

  /** The last digit of the line, read from the back. */
  function LastDigit(line: string): (c: char)
    requires HasDigit(line)
    ensures IsDigit(c)
    ensures exists i | 0 <= i < |line| :: line[i] == c && forall k | i < k < |line| :: !IsDigit(line[k])
  {
    var n := |line| - 1;
    if IsDigit(line[n]) then line[n]
    else
      assert HasDigit(line[..n]) by {
        var i :| 0 <= i < |line| && IsDigit(line[i]);
        assert line[..n][i] == line[i];
      }
      var c := LastDigit(line[..n]);
      var i :| 0 <= i < n && line[..n][i] == c && forall k | i < k < n :: !IsDigit(line[..n][k]);
      assert line[i] == c && forall k | i < k < |line| :: !IsDigit(line[k]) by {
        forall k | i < k < |line| ensures !IsDigit(line[k]) {
          if k < n {
            assert line[k] == line[..n][k];
          }
        }
      }
      c
  }

  /** The part 1 calibration value of a line: first digit, then last digit. */
  function SimpleValue(line: string): (v: nat)
    requires HasDigit(line)
    ensures v <= 99
  {
    10 * DigitValue(FirstDigit(line)) + DigitValue(LastDigit(line))
  }

  /**
   * `toCalibrationValueSimple`: one index walks forward from before the line and one backward
   * from past its end until each stands on a digit. Without a digit the walk would run off the
   * line, so a digit is required.
   */
  method CalibrationValueSimple(line: string) returns (v: int)
    requires HasDigit(line)
    ensures v == SimpleValue(line)
  {
    var firstDigitIdx := -1;
    var lastDigitIdx := |line|;
    ghost var w :| 0 <= w < |line| && IsDigit(line[w]);
    firstDigitIdx := firstDigitIdx + 1;
    while !IsDigit(line[firstDigitIdx])
      invariant 0 <= firstDigitIdx <= w
      invariant forall k | 0 <= k < firstDigitIdx :: !IsDigit(line[k])
      decreases w - firstDigitIdx
    {
      firstDigitIdx := firstDigitIdx + 1;
    }
    lastDigitIdx := lastDigitIdx - 1;
    while !IsDigit(line[lastDigitIdx])
      invariant w <= lastDigitIdx < |line|
      invariant forall k | lastDigitIdx < k < |line| :: !IsDigit(line[k])
      decreases lastDigitIdx - w
    {
      lastDigitIdx := lastDigitIdx - 1;
    }
    FirstDigitAt(line, firstDigitIdx);
    LastDigitAt(line, lastDigitIdx);
    v := DigitValue(line[firstDigitIdx]) * 10 + DigitValue(line[lastDigitIdx]);
  }

  /** A digit with no digit before it is the first digit. */
  lemma FirstDigitAt(line: string, i: nat)
    requires i < |line| && IsDigit(line[i]) && forall k | 0 <= k < i :: !IsDigit(line[k])
    ensures FirstDigit(line) == line[i]
  {
    var c := FirstDigit(line);
    var j :| 0 <= j < |line| && line[j] == c && forall k | 0 <= k < j :: !IsDigit(line[k]);
    assert !(j < i) && !(i < j);
  }

  /** A digit with no digit after it is the last digit. */
  lemma LastDigitAt(line: string, i: nat)
    requires i < |line| && IsDigit(line[i]) && forall k | i < k < |line| :: !IsDigit(line[k])
    ensures LastDigit(line) == line[i]
  {
    var c := LastDigit(line);
    var j :| 0 <= j < |line| && line[j] == c && forall k | j < k < |line| :: !IsDigit(line[k]);
    assert !(j < i) && !(i < j);
  }

  /** A line with a single digit d is worth 11 * d ("treb7uchet" is worth 77). */
  lemma SingleDigitLine(line: string, i: nat)
    requires i < |line| && IsDigit(line[i])
    requires forall k | 0 <= k < |line| && k != i :: !IsDigit(line[k])
    ensures SimpleValue(line) == 11 * DigitValue(line[i])
  {
    FirstDigitAt(line, i);
    LastDigitAt(line, i);
  }

  /** Two of the documented lines: "treb7uchet" is worth 77 and "1abc2" is worth 12. */
  lemma SimpleExamples()
    ensures HasDigit("treb7uchet") && SimpleValue("treb7uchet") == 77
    ensures HasDigit("1abc2") && SimpleValue("1abc2") == 12
  {
    var t := "treb7uchet";
    assert IsDigit(t[4]);
    SingleDigitLine(t, 4);
    var u := "1abc2";
    assert IsDigit(u[0]) && IsDigit(u[4]);
    FirstDigitAt(u, 0);
    LastDigitAt(u, 4);
  }

  /** `DIGITS`, in the order of its declaration: the ten digit characters but '0', then the words. */
  const Tokens: seq<(string, nat)> := [
    ("1", 1), ("2", 2), ("3", 3), ("4", 4), ("5", 5), ("6", 6), ("7", 7), ("8", 8), ("9", 9),
    ("one", 1), ("two", 2), ("three", 3), ("four", 4), ("five", 5), ("six", 6), ("seven", 7),
    ("eight", 8), ("nine", 9)]

  lemma TokensShape()
    ensures |Tokens| == 18
    ensures forall k | 0 <= k < |Tokens| :: 1 <= Tokens[k].1 <= 9 && |Tokens[k].0| >= 1
  {
  }

  /** `w` occurs in `s` starting at position p. */
  predicate OccursAt(s: string, w: string, p: int)
  {
    0 <= p && p + |w| <= |s| && s[p..p + |w|] == w
  }

  /** `indexOf` from position i on: the first occurrence at or after i, or -1. */
  function IndexFrom(s: string, w: string, i: nat): (r: int)
    ensures r == -1 || (i <= r && OccursAt(s, w, r))
    ensures forall p | i <= p && (r == -1 || p < r) :: !OccursAt(s, w, p)
    decreases |s| - i
  {
    if i + |w| > |s| then -1
    else if s[i..i + |w|] == w then i
    else IndexFrom(s, w, i + 1)
  }

  /** `String.indexOf`: the first occurrence of `w`, or -1. */
  function IndexOf(s: string, w: string): (r: int)
    ensures r == -1 || OccursAt(s, w, r)
    ensures forall p | 0 <= p && (r == -1 || p < r) :: !OccursAt(s, w, p)
  {
    IndexFrom(s, w, 0)
  }

  /** `lastIndexOf` at or before i: the last occurrence starting at or before i, or -1. */
  function LastIndexUpTo(s: string, w: string, i: int): (r: int)
    ensures r == -1 || (r <= i && OccursAt(s, w, r))
    ensures forall p | r < p <= i :: !OccursAt(s, w, p)
    decreases i + 1
  {
    if i < 0 then -1
    else if OccursAt(s, w, i) then i
    else LastIndexUpTo(s, w, i - 1)
  }

  /** `String.lastIndexOf`: the last occurrence of `w`, or -1. */
  function LastIndexOf(s: string, w: string): (r: int)
    ensures r == -1 || OccursAt(s, w, r)
    ensures forall p | r < p :: !OccursAt(s, w, p)
  {
    LastIndexUpTo(s, w, |s| - |w|)
  }

  /** The (position, digit) pairs of the tokens that occur, in `DIGITS` order (the `filter`). */
  function Found(positions: seq<int>, tokens: seq<(string, nat)>): (r: seq<(int, nat)>)
    requires |positions| == |tokens|
    ensures forall k | 0 <= k < |r| :: r[k].0 >= 0
    ensures forall k | 0 <= k < |r| :: exists j | 0 <= j < |tokens| :: r[k] == (positions[j], tokens[j].1)
    ensures forall j | 0 <= j < |tokens| && positions[j] >= 0 :: (positions[j], tokens[j].1) in r
  {
    if tokens == [] then []
    else
      var n := |tokens| - 1;
      var r := Found(positions[..n], tokens[..n]);
      if positions[n] >= 0 then r + [(positions[n], tokens[n].1)] else r
  }

  /** `minBy`: the first pair with the smallest position. */
  function MinByPosition(ps: seq<(int, nat)>): (m: (int, nat))
    requires ps != []
    ensures m in ps && forall k | 0 <= k < |ps| :: m.0 <= ps[k].0
  {
    if |ps| == 1 then ps[0]
    else
      var m := MinByPosition(ps[..|ps| - 1]);
      assert forall k | 0 <= k < |ps| - 1 :: ps[k] == ps[..|ps| - 1][k];
      if ps[|ps| - 1].0 < m.0 then ps[|ps| - 1] else m
  }

  /** `maxBy`: the first pair with the largest position. */
  function MaxByPosition(ps: seq<(int, nat)>): (m: (int, nat))
    requires ps != []
    ensures m in ps && forall k | 0 <= k < |ps| :: m.0 >= ps[k].0
  {
    if |ps| == 1 then ps[0]
    else
      var m := MaxByPosition(ps[..|ps| - 1]);
      assert forall k | 0 <= k < |ps| - 1 :: ps[k] == ps[..|ps| - 1][k];
      if ps[|ps| - 1].0 > m.0 then ps[|ps| - 1] else m
  }

  /** Every token stands for one of the digits 1..9, as in `DIGITS`. */
  predicate DigitTokens(tokens: seq<(string, nat)>)
  {
    forall k | 0 <= k < |tokens| :: 1 <= tokens[k].1 <= 9
  }

  lemma TokensAreDigitTokens()
    ensures DigitTokens(Tokens)
  {
  }

  /** The `indexOf` of each token (the first `map`). */
  function FirstPositions(line: string, tokens: seq<(string, nat)>): (r: seq<int>)
    ensures |r| == |tokens| && forall k | 0 <= k < |tokens| :: r[k] == IndexOf(line, tokens[k].0)
  {
    seq(|tokens|, k requires 0 <= k < |tokens| => IndexOf(line, tokens[k].0))
  }

  /** The `lastIndexOf` of each token (the second `map`). */
  function LastPositions(line: string, tokens: seq<(string, nat)>): (r: seq<int>)
    ensures |r| == |tokens| && forall k | 0 <= k < |tokens| :: r[k] == LastIndexOf(line, tokens[k].0)
  {
    seq(|tokens|, k requires 0 <= k < |tokens| => LastIndexOf(line, tokens[k].0))
  }

  /** Some token occurs in the line (otherwise `minBy` fails on an empty list). */
  predicate HasToken(line: string, tokens: seq<(string, nat)>)
  {
    exists k | 0 <= k < |tokens| :: IndexOf(line, tokens[k].0) >= 0
  }

  /** A token occurs in the line exactly when `lastIndexOf` also finds it. */
  lemma FoundBothWays(line: string, w: string)
    ensures IndexOf(line, w) >= 0 <==> LastIndexOf(line, w) >= 0
  {
    var i := IndexOf(line, w);
    var j := LastIndexOf(line, w);
    if i >= 0 {
      assert !(j < i);
    }
    if j >= 0 {
      assert OccursAt(line, w, j);
    }
  }

  /** No token occurrence starts before p. */
  ghost predicate NoneBefore(line: string, tokens: seq<(string, nat)>, p: int)
  {
    forall j, q | 0 <= j < |tokens| && OccursAt(line, tokens[j].0, q) :: p <= q
  }

  /** No token occurrence starts after p. */
  ghost predicate NoneAfter(line: string, tokens: seq<(string, nat)>, p: int)
  {
    forall j, q | 0 <= j < |tokens| && OccursAt(line, tokens[j].0, q) :: q <= p
  }

  /** d is the digit of a token occurring at a position that no token occurrence precedes. */
  ghost predicate IsFirstTokenDigit(line: string, tokens: seq<(string, nat)>, d: int)
  {
    exists k, p | 0 <= k < |tokens| && OccursAt(line, tokens[k].0, p) :: d == tokens[k].1 && NoneBefore(line, tokens, p)
  }

  /** d is the digit of a token occurring at a position that no token occurrence follows. */
  ghost predicate IsLastTokenDigit(line: string, tokens: seq<(string, nat)>, d: int)
  {
    exists k, p | 0 <= k < |tokens| && OccursAt(line, tokens[k].0, p) :: d == tokens[k].1 && NoneAfter(line, tokens, p)
  }

  /** `firstDigit`: the digit of the `minBy` pair among the tokens `indexOf` finds. */
  function FirstTokenDigit(line: string, tokens: seq<(string, nat)>): (d: nat)
    requires DigitTokens(tokens) && HasToken(line, tokens)
    ensures 1 <= d <= 9 && IsFirstTokenDigit(line, tokens, d)
  {
    var firsts := Found(FirstPositions(line, tokens), tokens);
    var k0 :| 0 <= k0 < |tokens| && IndexOf(line, tokens[k0].0) >= 0;
    assert (FirstPositions(line, tokens)[k0], tokens[k0].1) in firsts;
    var first := MinByPosition(firsts);
    FirstIsLeftmost(line, tokens, firsts, first);
    first.1
  }

  /** `lastDigit`: the digit of the `maxBy` pair among the tokens `lastIndexOf` finds. */
  function LastTokenDigit(line: string, tokens: seq<(string, nat)>): (d: nat)
    requires DigitTokens(tokens) && HasToken(line, tokens)
    ensures 1 <= d <= 9 && IsLastTokenDigit(line, tokens, d)
  {
    var lasts := Found(LastPositions(line, tokens), tokens);
    var k0 :| 0 <= k0 < |tokens| && IndexOf(line, tokens[k0].0) >= 0;
    FoundBothWays(line, tokens[k0].0);
    assert (LastPositions(line, tokens)[k0], tokens[k0].1) in lasts;
    var last := MaxByPosition(lasts);
    LastIsRightmost(line, tokens, lasts, last);
    last.1
  }

  /**
   * `toCalibrationValueComplex`, over the token table `tokens` (`DIGITS` in the program): the
   * digit of the token that occurs first, then the digit of the token that occurs last.
   */
  function ComplexValue(line: string, tokens: seq<(string, nat)>): (v: nat)
    requires DigitTokens(tokens) && HasToken(line, tokens)
    ensures 11 <= v <= 99
    ensures exists tens, units | IsFirstTokenDigit(line, tokens, tens) && IsLastTokenDigit(line, tokens, units)
              :: v == 10 * tens + units
  {
    10 * FirstTokenDigit(line, tokens) + LastTokenDigit(line, tokens)
  }

  lemma FirstIsLeftmost(line: string, tokens: seq<(string, nat)>, firsts: seq<(int, nat)>, first: (int, nat))
    requires DigitTokens(tokens)
    requires firsts == Found(FirstPositions(line, tokens), tokens)
    requires first in firsts && forall k | 0 <= k < |firsts| :: first.0 <= firsts[k].0
    ensures 1 <= first.1 <= 9
    ensures IsFirstTokenDigit(line, tokens, first.1)
  {
    var positions := FirstPositions(line, tokens);
    var k :| 0 <= k < |tokens| && first == (positions[k], tokens[k].1);
    var p := first.0;
    assert OccursAt(line, tokens[k].0, p);
    forall j, q | 0 <= j < |tokens| && OccursAt(line, tokens[j].0, q) ensures p <= q {
      var pj := IndexOf(line, tokens[j].0);
      assert pj >= 0 && pj <= q;
      assert (positions[j], tokens[j].1) in firsts;
    }
    assert NoneBefore(line, tokens, p);
    assert OccursAt(line, tokens[k].0, p) && first.1 == tokens[k].1;
  }

  lemma LastIsRightmost(line: string, tokens: seq<(string, nat)>, lasts: seq<(int, nat)>, last: (int, nat))
    requires DigitTokens(tokens)
    requires lasts == Found(LastPositions(line, tokens), tokens)
    requires last in lasts && forall k | 0 <= k < |lasts| :: last.0 >= lasts[k].0
    ensures 1 <= last.1 <= 9
    ensures IsLastTokenDigit(line, tokens, last.1)
  {
    var positions := LastPositions(line, tokens);
    var k :| 0 <= k < |tokens| && last == (positions[k], tokens[k].1);
    var p := last.0;
    assert OccursAt(line, tokens[k].0, p);
    forall j, q | 0 <= j < |tokens| && OccursAt(line, tokens[j].0, q) ensures q <= p {
      var pj := LastIndexOf(line, tokens[j].0);
      assert pj >= q;
      assert (positions[j], tokens[j].1) in lasts;
    }
    assert NoneAfter(line, tokens, p);
    assert OccursAt(line, tokens[k].0, p) && last.1 == tokens[k].1;
  }

  /** `isBlank`: only whitespace (ASCII whitespace in this model). */
  predicate IsBlank(line: string)
  {
    forall i | 0 <= i < |line| :: line[i] in {' ', '\t', '\n', '\r', '\U{B}', '\U{C}'}
  }

  /** `filterNot(String::isBlank)`. */
  function NonBlank(lines: seq<string>): (r: seq<string>)
    ensures |r| <= |lines|
    ensures forall i | 0 <= i < |r| :: !IsBlank(r[i]) && r[i] in lines
    ensures forall i | 0 <= i < |lines| && !IsBlank(lines[i]) :: lines[i] in r
  {
    if lines == [] then []
    else (if IsBlank(lines[0]) then [] else [lines[0]]) + NonBlank(lines[1..])
  }

  function SumSimple(lines: seq<string>): int
    requires forall i | 0 <= i < |lines| :: HasDigit(lines[i])
  {
    if lines == [] then 0 else SimpleValue(lines[0]) + SumSimple(lines[1..])
  }

  function SumComplex(lines: seq<string>, tokens: seq<(string, nat)>): (r: int)
    requires DigitTokens(tokens) && forall i | 0 <= i < |lines| :: HasToken(lines[i], tokens)
    ensures 11 * |lines| <= r <= 99 * |lines|
  {
    if lines == [] then 0 else ComplexValue(lines[0], tokens) + SumComplex(lines[1..], tokens)
  }

  /** Part 1: the sum of the simple values of the non-blank lines. */
  function Part1(input: seq<string>): (r: int)
    requires forall i | 0 <= i < |input| && !IsBlank(input[i]) :: HasDigit(input[i])
    ensures 0 <= r <= 99 * |NonBlank(input)|
  {
    var lines := NonBlank(input);
    SumSimpleBounds(lines);
    SumSimple(lines)
  }

  /** Part 2: the sum of the spelled-out-aware values of the non-blank lines. */
  function Part2(input: seq<string>): (r: int)
    requires forall i | 0 <= i < |input| && !IsBlank(input[i]) :: HasToken(input[i], Tokens)
    ensures 11 * |NonBlank(input)| <= r <= 99 * |NonBlank(input)|
  {
    TokensAreDigitTokens();
    SumComplex(NonBlank(input), Tokens)
  }

  lemma {:induction false} SumSimpleBounds(lines: seq<string>)
    requires forall i | 0 <= i < |lines| :: HasDigit(lines[i])
    ensures 0 <= SumSimple(lines) <= 99 * |lines|
  {
    if lines != [] {
      SumSimpleBounds(lines[1..]);
    }
  }
}
