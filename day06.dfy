/**
 * Wait For It: a boat race of `timeAllowed` milliseconds, where holding the button for t
 * milliseconds makes the boat travel t * (timeAllowed - t); count the hold times that beat the
 * record, and (part 2) read each line's digits as one number.
 */
module Day06 {
  import opened Common

  /** How far the boat gets when the button is held for `timeCharging` of `timeAllowed`. */
  function TravelDistance(timeAllowed: int, timeCharging: int): int
  {
    timeCharging * (timeAllowed - timeCharging)
  }

  predicate Beats(timeAllowed: int, recordDistance: int, timeCharging: int)
  {
    TravelDistance(timeAllowed, timeCharging) > recordDistance
  }

  /** The number of hold times among 0..k-1 that beat the record. */
  function CountBeatingBelow(timeAllowed: int, recordDistance: int, k: nat): (r: nat)
    ensures r <= k
  {
    if k == 0 then 0
    else CountBeatingBelow(timeAllowed, recordDistance, k - 1)
         + (if Beats(timeAllowed, recordDistance, k - 1) then 1 else 0)
  }

  /** `computeDistance`: how many hold times in 0..timeAllowed beat the record. */
  function ComputeDistance(timeAllowed: int, recordDistance: int): (r: nat)
    ensures r <= if timeAllowed < 0 then 0 else timeAllowed + 1
  {
    if timeAllowed < 0 then 0 else CountBeatingBelow(timeAllowed, recordDistance, timeAllowed + 1)
  }

  /** The winning hold times as a set. */
  function WinningHolds(timeAllowed: int, recordDistance: int, k: nat): set<nat>
  {
    set t: nat | t < k && Beats(timeAllowed, recordDistance, t)
  }

  /** The count is the size of the set of winning hold times. */
  lemma {:induction false} CountIsCardinality(timeAllowed: int, recordDistance: int, k: nat)
    ensures CountBeatingBelow(timeAllowed, recordDistance, k) == |WinningHolds(timeAllowed, recordDistance, k)|
  {
    if k > 0 {
      CountIsCardinality(timeAllowed, recordDistance, k - 1);
      var before := WinningHolds(timeAllowed, recordDistance, k - 1);
      var now := WinningHolds(timeAllowed, recordDistance, k);
      if Beats(timeAllowed, recordDistance, k - 1) {
        assert now == before + {k - 1};
      } else {
        assert now == before;
      }
    }
  }

  /** Holding for t and holding for timeAllowed - t go equally far. */
  lemma BeatsSymmetric(timeAllowed: int, recordDistance: int, t: int)
    ensures Beats(timeAllowed, recordDistance, t) <==> Beats(timeAllowed, recordDistance, timeAllowed - t)
  {
    assert TravelDistance(timeAllowed, timeAllowed - t) == (timeAllowed - t) * t;
  }

  /** With a non-negative record, not releasing at all or never holding never wins. */
  lemma EndsNeverWin(timeAllowed: int, recordDistance: int)
    requires recordDistance >= 0
    ensures !Beats(timeAllowed, recordDistance, 0) && !Beats(timeAllowed, recordDistance, timeAllowed)
  {
  }

  /** The winning hold times form one contiguous interval: the distance is concave in t. */
  lemma WinnersContiguous(timeAllowed: int, recordDistance: int, t1: int, t: int, t2: int)
    requires t1 <= t <= t2
    requires Beats(timeAllowed, recordDistance, t1) && Beats(timeAllowed, recordDistance, t2)
    ensures Beats(timeAllowed, recordDistance, t)
  {
    var T := timeAllowed;
    assert TravelDistance(T, t) - TravelDistance(T, t1) == (t - t1) * (T - t - t1);
    assert TravelDistance(T, t) - TravelDistance(T, t2) == (t2 - t) * (t + t2 - T);
    if T - t - t1 < 0 {
      assert (t2 - t) * (t + t2 - T) >= 0;
    } else {
      assert (t - t1) * (T - t - t1) >= 0;
    }
  }

  /** Part 1: the product of the counts over all races; a sheet without races has no product. */
  function ProductOfWays(races: seq<(int, int)>): (r: Option<int>)
    ensures r.None? <==> races == []
  {
    if races == [] then None
    else if |races| == 1 then Some(ComputeDistance(races[0].0, races[0].1))
    else Some(ProductOfWays(races[..|races| - 1]).value * ComputeDistance(races[|races| - 1].0, races[|races| - 1].1))
  }

  /** Each race contributes a factor: the product is the earlier product times the last count. */
  lemma ProductOfWaysStep(races: seq<(int, int)>, race: (int, int))
    requires races != []
    ensures ProductOfWays(races + [race]).value
            == ProductOfWays(races).value * ComputeDistance(race.0, race.1)
  {
    assert (races + [race])[..|races|] == races;
  }

  /** A race nobody can win makes the whole product zero. */
  lemma {:induction false} UnwinnableRaceZeroes(races: seq<(int, int)>, i: nat)
    requires i < |races| && ComputeDistance(races[i].0, races[i].1) == 0
    ensures ProductOfWays(races) == Some(0)
  {
    if i < |races| - 1 {
      UnwinnableRaceZeroes(races[..|races| - 1], i);
    }
  }

  predicate IsDigit(c: char) { '0' <= c <= '9' }

  /** The text after the first ':' (all of it when there is none), as `substringAfter(':')`. */
  function SubstringAfterColon(s: string): (r: string)
    ensures ':' !in s ==> r == s
    ensures ':' in s ==> exists before | ':' !in before :: s == before + ":" + r
  {
    if ':' !in s then s
    else if s[0] == ':' then (assert s == [] + ":" + s[1..]; s[1..])
    else
      var r := SubstringAfterColon(s[1..]);
      var before :| ':' !in before && s[1..] == before + ":" + r;
      assert s == [s[0]] + before + ":" + r;
      r
  }

  /** `replace(" ", "")`: the line with every space removed, other characters in order. */
  function RemoveSpaces(s: string): (r: string)
    ensures ' ' !in r && |r| <= |s|
  {
    if s == [] then [] else (if s[0] == ' ' then [] else [s[0]]) + RemoveSpaces(s[1..])
  }

  lemma {:induction false} RemoveSpacesAppend(a: string, b: string)
    ensures RemoveSpaces(a + b) == RemoveSpaces(a) + RemoveSpaces(b)
  {
    if a == [] {
      assert a + b == b;
    } else {
      assert (a + b)[0] == a[0] && (a + b)[1..] == a[1..] + b;
      var head := if a[0] == ' ' then [] else [a[0]];
      RemoveSpacesAppend(a[1..], b);
      calc {
        RemoveSpaces(a + b);
        head + RemoveSpaces(a[1..] + b);
        head + (RemoveSpaces(a[1..]) + RemoveSpaces(b));
        { ConcatAssociative(head, RemoveSpaces(a[1..]), RemoveSpaces(b)); }
        (head + RemoveSpaces(a[1..])) + RemoveSpaces(b);
      }
    }
  }

  /** The value of a decimal digit string (`String.toLong` on a digit-only text). */
  function DecimalValue(digits: string): (r: nat)
    requires forall i | 0 <= i < |digits| :: IsDigit(digits[i])
  {
    if digits == [] then 0
    else
      assert IsDigit(digits[|digits| - 1]);
      DecimalValue(digits[..|digits| - 1]) * 10 + (digits[|digits| - 1] as int - '0' as int)
  }

  function Pow10(k: nat): (r: nat)
    ensures r >= 1
  {
    if k == 0 then 1 else 10 * Pow10(k - 1)
  }

  /** Reading the concatenation of two digit strings shifts the first one left by the second's length. */
  lemma {:induction false} DecimalValueConcat(a: string, b: string)
    requires forall i | 0 <= i < |a| :: IsDigit(a[i])
    requires forall i | 0 <= i < |b| :: IsDigit(b[i])
    ensures forall i | 0 <= i < |a + b| :: IsDigit((a + b)[i])
    ensures DecimalValue(a + b) == DecimalValue(a) * Pow10(|b|) + DecimalValue(b)
  {
    if b == [] {
      assert a + b == a;
    } else {
      var b' := b[..|b| - 1];
      var ab := a + b;
      assert ab[..|ab| - 1] == a + b' && ab[|ab| - 1] == b[|b| - 1];
      DecimalValueConcat(a, b');
      var d := b[|b| - 1] as int - '0' as int;
      var x, y, p := DecimalValue(a), DecimalValue(b'), Pow10(|b'|);
      assert DecimalValue(ab) == DecimalValue(a + b') * 10 + d;
      assert DecimalValue(a + b') == x * p + y;
      assert DecimalValue(b) == y * 10 + d;
      assert Pow10(|b|) == p * 10;
      ShiftLeft(x, p, y, d);
    }
  }

  lemma ShiftLeft(x: int, p: int, y: int, d: int)
    ensures (x * p + y) * 10 + d == x * (p * 10) + (y * 10 + d)
  {
  }

  lemma {:induction false} RemoveSpacesKeepsDigits(a: string)
    requires forall i | 0 <= i < |a| :: IsDigit(a[i])
    ensures RemoveSpaces(a) == a
  {
    if a != [] {
      RemoveSpacesKeepsDigits(a[1..]);
    }
  }

  /** Ignoring the gap between two numbers on a line reads them as one: "7  15" as 715. */
  lemma KerningJoinsNumbers(a: string, b: string)
    requires forall i | 0 <= i < |a| :: IsDigit(a[i])
    requires forall i | 0 <= i < |b| :: IsDigit(b[i])
    ensures RemoveSpaces(a + " " + b) == a + b
    ensures DecimalValue(a + b) == DecimalValue(a) * Pow10(|b|) + DecimalValue(b)
  {
    var gap := " ";
    var left := a + gap;
    RemoveSpacesAppend(left, b);
    RemoveSpacesAppend(a, gap);
    RemoveSpacesKeepsDigits(a);
    RemoveSpacesKeepsDigits(b);
    assert RemoveSpaces(gap) == [];
    assert RemoveSpaces(left) == a;
    assert RemoveSpaces(left + b) == a + b;
    assert a + " " + b == left + b;
    DecimalValueConcat(a, b);
  }

  predicate AllDigits(s: string)
  {
    forall i | 0 <= i < |s| :: IsDigit(s[i])
  }

  const LongMin: int := -0x8000_0000_0000_0000
  const LongMax: int := 0x7FFF_FFFF_FFFF_FFFF

  /**
   * `String.toLong`: an optional '+' or '-', then at least one decimal digit, within the 64-bit
   * range; `None` where the conversion fails.
   */
  function ParseLong(s: string): (r: Option<int>)
    ensures r.Some? ==> LongMin <= r.value <= LongMax
    ensures s != [] && AllDigits(s) && DecimalValue(s) <= LongMax ==> r == Some(DecimalValue(s))
    ensures s == [] || (s[0] != '+' && s[0] != '-' && !AllDigits(s)) ==> r.None?
  {
    var negative := s != [] && s[0] == '-';
    var digits := if s != [] && (s[0] == '-' || s[0] == '+') then s[1..] else s;
    if digits == [] || !AllDigits(digits) then None
    else
      var value: int := if negative then -(DecimalValue(digits) as int) else DecimalValue(digits);
      if LongMin <= value <= LongMax then Some(value) else None
  }

  /** A '+' in front of a digit string keeps its value; it fails only above the 64-bit range. */
  lemma ParseLongPlus(d: string)
    requires d != [] && AllDigits(d)
    ensures ParseLong("+" + d) == if DecimalValue(d) <= LongMax then Some(DecimalValue(d)) else None
  {
    var plus := "+" + d;
    assert plus[0] == '+' && plus[1..] == d;
  }

  /** A '-' in front of a digit string negates its value; it fails only below the 64-bit range. */
  lemma ParseLongMinus(d: string)
    requires d != [] && AllDigits(d)
    ensures ParseLong("-" + d) == if DecimalValue(d) <= -LongMin then Some(-(DecimalValue(d) as int)) else None
  {
    var minus := "-" + d;
    assert minus[0] == '-' && minus[1..] == d;
  }

  /**
   * Part 2: the kerning-free number on one sheet line, read by `ParseLong` once the spaces are
   * gone; `None` where `toLong` fails.
   */
  function KerningFreeNumber(line: string): (r: Option<int>)
    ensures var digits := RemoveSpaces(SubstringAfterColon(line));
            && (digits != [] && AllDigits(digits) && DecimalValue(digits) <= LongMax ==> r == Some(DecimalValue(digits)))
            && (digits == [] ==> r.None?)
            && (r.Some? ==> LongMin <= r.value <= LongMax)
  {
    ParseLong(RemoveSpaces(SubstringAfterColon(line)))
  }

  /**
   * Part 2: one long race from the two lines; a negative time allows no hold time at all, as the
   * range `0..timeAllowed` is then empty.
   */
  function SingleRaceWays(timeLine: string, distanceLine: string): (r: Option<nat>)
    ensures r.Some? <==> KerningFreeNumber(timeLine).Some? && KerningFreeNumber(distanceLine).Some?
    ensures r.Some? ==> r.value == ComputeDistance(KerningFreeNumber(timeLine).value, KerningFreeNumber(distanceLine).value)
    ensures r.Some? && KerningFreeNumber(timeLine).value < 0 ==> r.value == 0
  {
    match (KerningFreeNumber(timeLine), KerningFreeNumber(distanceLine))
    case (Some(t), Some(d)) => Some(ComputeDistance(t, d))
    case _ => None
  }

  /** The documented races. */
  lemma Examples()
    ensures ComputeDistance(7, 9) == 4
    ensures ProductOfWays([(7, 9)]) == Some(4)
  {
    assert !Beats(7, 9, 0) && !Beats(7, 9, 1) && Beats(7, 9, 2) && Beats(7, 9, 3);
    assert Beats(7, 9, 4) && Beats(7, 9, 5) && !Beats(7, 9, 6) && !Beats(7, 9, 7);
  }
}
