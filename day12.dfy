/**
 * Day 12, Hot Springs: counting the arrangements of damaged springs.
 *
 * A row is a string over '.', '#' and '?' (operational, damaged, unknown) together with the
 * sizes of the contiguous groups of damaged springs. The solver splits the row into soft groups
 * (stretches without '.'), and counts arrangements with a recursion over (soft groups, group
 * sizes). A brute-force oracle enumerates all 2^k resolutions of the k unknowns.
 *
 * The meaning of "an arrangement" is pinned down by `Arrangements`, a character-by-character
 * count that is proved equal to the oracle (`ExhaustiveIsArrangements`) and to the recursion
 * (`CountPossibilities`), which gives the main theorem `CountRecursively`.
 */
module Day12 {
  import opened Common

  // ---------------------------------------------------------------------------------------------
  // Rows, soft groups and Kotlin's `split`
  // ---------------------------------------------------------------------------------------------

  predicate IsRowChar(c: char) { c == '.' || c == '#' || c == '?' }

  /** A condition record: only '.', '#' and '?'. */
  predicate IsRow(s: string) { forall i | 0 <= i < |s| :: IsRowChar(s[i]) }

  /** A soft group: a stretch of the row that holds no operational spring. */
  predicate IsSoftGroup(s: string) { forall i | 0 <= i < |s| :: s[i] == '#' || s[i] == '?' }

  /** A fully resolved row: no unknowns left. */
  predicate IsResolved(t: string) { forall i | 0 <= i < |t| :: t[i] == '.' || t[i] == '#' }

  predicate AllPositive(gs: seq<int>) { forall k | 0 <= k < |gs| :: gs[k] > 0 }

  /** Joins pieces with a separator (the inverse of `Split`). */
  function JoinWith(pieces: seq<string>, sep: char): string
  {
    if |pieces| == 0 then []
    else if |pieces| == 1 then pieces[0]
    else pieces[0] + [sep] + JoinWith(pieces[1..], sep)
  }

  /** Kotlin's `String.split(sep)`: all pieces between separators, empty ones included. */
  function Split(s: string, sep: char): (pieces: seq<string>)
    ensures |pieces| >= 1
  {
    if s == [] then [[]]
    else
      var rest := Split(s[1..], sep);
      if s[0] == sep then [[]] + rest
      else [[s[0]] + rest[0]] + rest[1..]
  }

  /** No piece holds the separator, and joining the pieces gives back the text. */
  lemma SplitJoin(s: string, sep: char)
    ensures forall k | 0 <= k < |Split(s, sep)| :: sep !in Split(s, sep)[k]
    ensures JoinWith(Split(s, sep), sep) == s
  {
    SplitNoSeparator(s, sep);
    SplitJoinBack(s, sep);
  }

  lemma {:induction false} SplitNoSeparator(s: string, sep: char)
    ensures forall k | 0 <= k < |Split(s, sep)| :: sep !in Split(s, sep)[k]
    decreases |s|
  {
    if s != [] {
      SplitNoSeparator(s[1..], sep);
      var rest := Split(s[1..], sep);
      if s[0] != sep {
        assert sep !in [s[0]] + rest[0];
      }
    }
  }

  lemma {:induction false} SplitJoinBack(s: string, sep: char)
    ensures JoinWith(Split(s, sep), sep) == s
    decreases |s|
  {
    if s != [] {
      SplitJoinBack(s[1..], sep);
      var rest := Split(s[1..], sep);
      assert s == [s[0]] + s[1..];
      if s[0] == sep {
        assert ([[]] + rest)[1..] == rest;
      } else {
        var pieces := [[s[0]] + rest[0]] + rest[1..];
        assert pieces[1..] == rest[1..];
        if |rest| > 1 {
          assert JoinWith(rest, sep) == rest[0] + [sep] + JoinWith(rest[1..], sep);
        }
      }
    }
  }

  function NonEmptyPieces(pieces: seq<string>): (r: seq<string>)
    ensures forall k | 0 <= k < |r| :: r[k] != [] && r[k] in pieces
  {
    if pieces == [] then []
    else (if pieces[0] != [] then [pieces[0]] else []) + NonEmptyPieces(pieces[1..])
  }

  function Lengths(pieces: seq<string>): (r: seq<int>)
    ensures |r| == |pieces|
  {
    if pieces == [] then [] else [|pieces[0]|] + Lengths(pieces[1..])
  }

  /** The sizes of the damaged groups of a resolved row: `split('.')`, drop empties, lengths. */
  function DamagedGroupSizes(t: string): seq<int>
  {
    Lengths(NonEmptyPieces(Split(t, '.')))
  }

  /** Everything in the row except the operational springs, in order. */
  function WithoutDots(s: string): string
  {
    if s == [] then [] else (if s[0] == '.' then [] else [s[0]]) + WithoutDots(s[1..])
  }

  function Concat(pieces: seq<string>): string
  {
    if pieces == [] then [] else pieces[0] + Concat(pieces[1..])
  }

  /** `Condition.softGroups`: the non-blank pieces of the row between '.'s. */
  function SoftGroups(s: string): (r: seq<string>)
    requires IsRow(s)
    ensures forall k | 0 <= k < |r| :: r[k] != [] && IsSoftGroup(r[k])
    ensures Concat(r) == WithoutDots(s)
  {
    SplitPiecesAreSoft(s);
    NonEmptyConcat(Split(s, '.'));
    SplitConcatIsWithoutDots(s);
    NonEmptyPieces(Split(s, '.'))
  }

  lemma SplitPiecesAreSoft(s: string)
    requires IsRow(s)
    ensures forall k | 0 <= k < |Split(s, '.')| :: IsSoftGroup(Split(s, '.')[k])
  {
    if s != [] {
      SplitPiecesAreSoft(s[1..]);
      SplitJoin(s[1..], '.');
      var rest := Split(s[1..], '.');
      if s[0] != '.' {
        var first := [s[0]] + rest[0];
        assert IsSoftGroup(first) by {
          forall i | 0 <= i < |first| ensures first[i] == '#' || first[i] == '?' {
            if i > 0 { assert first[i] == rest[0][i - 1]; assert '.' !in rest[0]; }
          }
        }
      }
    }
  }

  lemma NonEmptyConcat(pieces: seq<string>)
    ensures Concat(NonEmptyPieces(pieces)) == Concat(pieces)
  {
    if pieces != [] {
      NonEmptyConcat(pieces[1..]);
      var r := NonEmptyPieces(pieces[1..]);
      if pieces[0] != [] {
        assert ([pieces[0]] + r)[1..] == r;
      } else {
        assert [] + r == r;
      }
    }
  }

  lemma SplitConcatIsWithoutDots(s: string)
    ensures Concat(Split(s, '.')) == WithoutDots(s)
  {
    if s != [] {
      SplitConcatIsWithoutDots(s[1..]);
      var rest := Split(s[1..], '.');
      if s[0] == '.' {
        assert ([[]] + rest)[1..] == rest;
      } else {
        var pieces := [[s[0]] + rest[0]] + rest[1..];
        assert pieces[1..] == rest[1..];
        assert Concat(rest) == rest[0] + Concat(rest[1..]);
      }
    }
  }

  /** `Condition.containsKnown`. */
  predicate ContainsKnown(text: string) { '#' in text }

  /** `List<Condition>.containsKnown`. */
  predicate AnyContainsKnown(conditions: seq<string>)
  {
    exists k | 0 <= k < |conditions| :: ContainsKnown(conditions[k])
  }

  /** `Condition.indexOfFirstKnown`: the index of the first '#', or -1. */
  function IndexOfFirstKnown(text: string): (r: int)
    ensures -1 <= r < |text|
    ensures r == -1 <==> '#' !in text
    ensures 0 <= r ==> text[r] == '#' && '#' !in text[..r]
  {
    if text == [] then -1
    else if text[0] == '#' then 0
    else
      var r := IndexOfFirstKnown(text[1..]);
      if r == -1 then
        assert text == [text[0]] + text[1..];
        -1
      else
        assert text[..r + 1] == [text[0]] + text[1..][..r];
        r + 1
  }

  /**
   * `Condition.splitAt(index)`: at the end of the text the whole text and ""; at a '?' the text
   * before and after it; anywhere else no split.
   */
  function SplitAt(text: string, index: nat): (r: Option<(string, string)>)
    requires index <= |text|
    ensures r.None? <==> index < |text| && text[index] != '?'
    ensures index == |text| ==> r == Some((text, []))
    ensures r.Some? && index < |text| ==>
              |r.value.0| == index && r.value.0 + "?" + r.value.1 == text
  {
    if index == |text| then Some((text, []))
    else if text[index] == '?' then
      assert text == text[..index] + "?" + text[index + 1..];
      Some((text[..index], text[index + 1..]))
    else None
  }

  // ---------------------------------------------------------------------------------------------
  // What an arrangement is
  // ---------------------------------------------------------------------------------------------

  /**
   * The number of ways to resolve the '?' of `s` such that the damaged groups are `gs`, when
   * `cur` damaged springs of an unfinished group directly precede `s`. One character at a time:
   * '.' closes the open group (which must then have the size gs[0]), '#' extends it (never beyond
   * gs[0]), '?' is either.
   */
  ghost function Arrangements(s: string, gs: seq<int>, cur: nat): nat
    decreases |s|
  {
    if s == [] then
      (if (cur == 0 && gs == []) || (cur > 0 && gs == [cur]) then 1 else 0)
    else
      var asDot :=
        if s[0] != '.' && s[0] != '?' then 0
        else if cur == 0 then Arrangements(s[1..], gs, 0)
        else if gs != [] && gs[0] == cur then Arrangements(s[1..], gs[1..], 0)
        else 0;
      var asHash :=
        if s[0] != '#' && s[0] != '?' then 0
        else if gs == [] || cur + 1 > gs[0] then 0
        else Arrangements(s[1..], gs, cur + 1);
      asDot + asHash
  }


  /** `n` damaged springs. */
  function Hashes(n: nat): (r: string)
    ensures |r| == n && '.' !in r
  {
    if n == 0 then [] else Hashes(n - 1) + "#"
  }

  lemma DamagedGroupSizesOfHashes(n: nat)
    ensures DamagedGroupSizes(Hashes(n)) == if n == 0 then [] else [n]
  {
    var h := Hashes(n);
    SplitWithoutSep(h);
    assert NonEmptyPieces([h]) == (if n == 0 then [] else [h]) + NonEmptyPieces([]);
    if n > 0 {
      assert Lengths([h]) == [|h|] + Lengths([]);
    }
  }

  lemma SplitWithoutSep(x: string)
    requires '.' !in x
    ensures Split(x, '.') == [x]
  {
    if x != [] {
      assert '.' !in x[1..];
      SplitWithoutSep(x[1..]);
      assert x == [x[0]] + x[1..];
    }
  }

  lemma SplitAfterPiece(x: string, y: string)
    requires '.' !in x
    ensures Split(x + "." + y, '.') == [x] + Split(y, '.')
  {
    if x == [] {
      assert ([] + "." + y)[1..] == y;
    } else {
      var s := x + "." + y;
      assert '.' !in x[1..];
      SplitAfterPiece(x[1..], y);
      assert s[1..] == x[1..] + "." + y;
      var rest := Split(s[1..], '.');
      assert rest == [x[1..]] + Split(y, '.');
      assert s[0] == x[0] && s[0] != '.';
      assert Split(s, '.') == [[s[0]] + rest[0]] + rest[1..];
      assert [x[0]] + x[1..] == x;
    }
  }

  lemma NonEmptyPiecesAppend(a: seq<string>, b: seq<string>)
    ensures NonEmptyPieces(a + b) == NonEmptyPieces(a) + NonEmptyPieces(b)
  {
    if a != [] {
      assert (a + b)[0] == a[0] && (a + b)[1..] == a[1..] + b;
      var head := if a[0] != [] then [a[0]] else [];
      NonEmptyPiecesAppend(a[1..], b);
      calc {
        NonEmptyPieces(a + b);
        head + NonEmptyPieces(a[1..] + b);
        head + (NonEmptyPieces(a[1..]) + NonEmptyPieces(b));
        { ConcatAssociative(head, NonEmptyPieces(a[1..]), NonEmptyPieces(b)); }
        (head + NonEmptyPieces(a[1..])) + NonEmptyPieces(b);
      }
    } else {
      assert a + b == b;
    }
  }

  lemma LengthsAppend(a: seq<string>, b: seq<string>)
    ensures Lengths(a + b) == Lengths(a) + Lengths(b)
  {
    if a != [] {
      assert (a + b)[1..] == a[1..] + b;
      LengthsAppend(a[1..], b);
    } else {
      assert a + b == b;
    }
  }

  /** A piece without '.' followed by '.' contributes its own group and nothing else. */
  lemma DamagedGroupSizesAfterPiece(x: string, y: string)
    requires '.' !in x
    ensures DamagedGroupSizes(x + "." + y)
            == (if x == [] then [] else [|x|]) + DamagedGroupSizes(y)
  {
    SplitAfterPiece(x, y);
    NonEmptyPiecesAppend([x], Split(y, '.'));
    LengthsAppend(NonEmptyPieces([x]), NonEmptyPieces(Split(y, '.')));
  }

  /** After an open group of c > 0, the first group has at least c springs. */
  lemma OpenGroupIsFirst(t: string, c: nat)
    requires IsResolved(t) && c > 0
    ensures DamagedGroupSizes(Hashes(c) + t) != []
    ensures DamagedGroupSizes(Hashes(c) + t)[0] >= c
    decreases |t|
  {
    if t == [] {
      assert Hashes(c) + t == Hashes(c);
      DamagedGroupSizesOfHashes(c);
    } else if t[0] == '.' {
      assert Hashes(c) + t == Hashes(c) + "." + t[1..];
      DamagedGroupSizesAfterPiece(Hashes(c), t[1..]);
    } else {
      assert Hashes(c) + t == Hashes(c + 1) + t[1..];
      OpenGroupIsFirst(t[1..], c + 1);
    }
  }

  /** On a resolved row, `Arrangements` is 1 exactly when the row's groups are `gs`. */
  lemma {:induction false} ResolvedArrangements(t: string, gs: seq<int>, cur: nat)
    requires IsResolved(t)
    ensures Arrangements(t, gs, cur) == if DamagedGroupSizes(Hashes(cur) + t) == gs then 1 else 0
    decreases |t|
  {
    if t == [] {
      assert Hashes(cur) + t == Hashes(cur);
      DamagedGroupSizesOfHashes(cur);
    } else if t[0] == '.' {
      assert Hashes(cur) + t == Hashes(cur) + "." + t[1..];
      DamagedGroupSizesAfterPiece(Hashes(cur), t[1..]);
      assert Hashes(0) + t[1..] == t[1..];
      if cur == 0 {
        ResolvedArrangements(t[1..], gs, 0);
      } else {
        ResolvedArrangements(t[1..], if gs == [] then [] else gs[1..], 0);
        if gs != [] {
          assert gs == [gs[0]] + gs[1..];
        }
      }
    } else {
      assert Hashes(cur) + t == Hashes(cur + 1) + t[1..];
      if gs == [] || cur + 1 > gs[0] {
        OpenGroupIsFirst(t[1..], cur + 1);
      } else {
        ResolvedArrangements(t[1..], gs, cur + 1);
      }
    }
  }

  // ---------------------------------------------------------------------------------------------
  // The brute-force oracle: `generateStringVariations` and `countExhaustively`
  // ---------------------------------------------------------------------------------------------

  function QuestionCount(s: string): (k: nat)
    ensures k <= |s|
  {
    if s == [] then 0 else (if s[0] == '?' then 1 else 0) + QuestionCount(s[1..])
  }

  /** Bit `k` of `mask` (the source's `idx and (1 shl k) != 0`). */
  function Bit(mask: nat, k: nat): bool
  {
    if k == 0 then mask % 2 == 1 else Bit(mask / 2, k - 1)
  }

  /**
   * Variation number `mask` of `s`: the k-th '?' (counted from the left, from 0) becomes '#' when
   * bit k of `mask` is set and '.' otherwise (see `ResolveAgrees`).
   */
  function Resolve(s: string, mask: nat): (t: string)
    ensures |t| == |s|
  {
    if s == [] then []
    else if s[0] == '?' then [if mask % 2 == 1 then '#' else '.'] + Resolve(s[1..], mask / 2)
    else [s[0]] + Resolve(s[1..], mask)
  }

  lemma ResolveCons(c: char, r: string, mask: nat)
    ensures Resolve([c] + r, mask)
            == if c == '?' then [if mask % 2 == 1 then '#' else '.'] + Resolve(r, mask / 2)
               else [c] + Resolve(r, mask)
  {
    assert ([c] + r)[1..] == r;
  }

  /** Variation `mask` keeps a known character and sets the k-th '?' from bit k of `mask`. */
  lemma {:induction false} ResolveAt(s: string, mask: nat, i: nat)
    requires i < |s|
    ensures Resolve(s, mask)[i]
            == if s[i] != '?' then s[i] else if Bit(mask, QuestionCount(s[..i])) then '#' else '.'
    decreases i
  {
    assert s == [s[0]] + s[1..];
    var m' := if s[0] == '?' then mask / 2 else mask;
    ResolveCons(s[0], s[1..], mask);
    if i == 0 {
      assert s[..0] == [];
    } else {
      ResolveAt(s[1..], m', i - 1);
      assert s[..i] == [s[0]] + s[1..][..i - 1];
      assert QuestionCount(s[..i]) == (if s[0] == '?' then 1 else 0) + QuestionCount(s[1..][..i - 1]);
    }
  }

  lemma ResolveAgrees(s: string, mask: nat)
    ensures forall i | 0 <= i < |s| && s[i] != '?' :: Resolve(s, mask)[i] == s[i]
    ensures forall i | 0 <= i < |s| && s[i] == '?' ::
              Resolve(s, mask)[i] == if Bit(mask, QuestionCount(s[..i])) then '#' else '.'
  {
    forall i | 0 <= i < |s| {
      ResolveAt(s, mask, i);
    }
  }

  lemma ResolveIsResolved(s: string, mask: nat)
    requires IsRow(s)
    ensures IsResolved(Resolve(s, mask))
  {
    ResolveAgrees(s, mask);
  }

  /** `generateStringVariations`: all 2^k resolutions of the k unknowns, by bit mask. */
  function Variations(s: string): (vs: seq<string>)
    requires IsRow(s)
    ensures |vs| == Pow2(QuestionCount(s))
    ensures forall m | 0 <= m < |vs| :: |vs[m]| == |s| && IsResolved(vs[m])
    ensures forall m, i | 0 <= m < |vs| && 0 <= i < |s| && s[i] != '?' :: vs[m][i] == s[i]
  {
    var vs := seq(Pow2(QuestionCount(s)), m requires 0 <= m => Resolve(s, m));
    assert forall m | 0 <= m < |vs| :: IsResolved(vs[m]) && forall i | 0 <= i < |s| && s[i] != '?' :: vs[m][i] == s[i] by {
      forall m | 0 <= m < |vs|
        ensures IsResolved(vs[m]) && forall i | 0 <= i < |s| && s[i] != '?' :: vs[m][i] == s[i]
      {
        ResolveAgrees(s, m);
        ResolveIsResolved(s, m);
      }
    }
    vs
  }

  /** Distinct masks below 2^k give distinct variations: the enumeration has no duplicates. */
  lemma {:induction false} VariationsDistinct(s: string, m1: nat, m2: nat)
    requires m1 < Pow2(QuestionCount(s)) && m2 < Pow2(QuestionCount(s)) && m1 != m2
    ensures Resolve(s, m1) != Resolve(s, m2)
    decreases |s|
  {
    var r := s[1..];
    assert s == [s[0]] + r;
    if s[0] == '?' {
      if m1 % 2 != m2 % 2 {
        assert Resolve(s, m1)[0] != Resolve(s, m2)[0];
      } else {
        VariationsDistinct(r, m1 / 2, m2 / 2);
        assert Resolve(s, m1)[1..] == Resolve(r, m1 / 2);
        assert Resolve(s, m2)[1..] == Resolve(r, m2 / 2);
      }
    } else {
      VariationsDistinct(r, m1, m2);
      assert Resolve(s, m1)[1..] == Resolve(r, m1);
      assert Resolve(s, m2)[1..] == Resolve(r, m2);
    }
  }

  /** The number of variations whose damaged groups are exactly `gs`. */
  function CountMatching(vs: seq<string>, gs: seq<int>): (n: nat)
    ensures n <= |vs|
  {
    if vs == [] then 0
    else CountMatching(vs[..|vs| - 1], gs) + (if DamagedGroupSizes(vs[|vs| - 1]) == gs then 1 else 0)
  }

  /** `countExhaustively`: the brute-force oracle. */
  function CountExhaustively(conditions: string, groupSizes: seq<int>): nat
    requires IsRow(conditions)
  {
    CountMatching(Variations(conditions), groupSizes)
  }

  /** f(0) + ... + f(n - 1). */
  function SumTo(f: nat -> nat, n: nat): nat
  {
    if n == 0 then 0 else SumTo(f, n - 1) + f(n - 1)
  }

  lemma {:induction false} SumToPointwise(f: nat -> nat, g: nat -> nat, n: nat)
    requires forall m: nat | m < n :: f(m) == g(m)
    ensures SumTo(f, n) == SumTo(g, n)
  {
    if n > 0 {
      SumToPointwise(f, g, n - 1);
    }
  }

  /** Summing the even-indexed and the odd-indexed terms separately. */
  lemma {:induction false} SumToInterleaved(f: nat -> nat, even: nat -> nat, odd: nat -> nat, n: nat)
    requires forall m: nat | m < n :: f(2 * m) == even(m) && f(2 * m + 1) == odd(m)
    ensures SumTo(f, 2 * n) == SumTo(even, n) + SumTo(odd, n)
  {
    if n > 0 {
      SumToInterleaved(f, even, odd, n - 1);
      assert f(2 * (n - 1)) == even(n - 1) && f(2 * (n - 1) + 1) == odd(n - 1);
    }
  }

  /** The arrangements of every variation m < n, summed. */
  ghost function SumOverMasks(s: string, gs: seq<int>, cur: nat, n: nat): nat
  {
    SumTo(m => Arrangements(Resolve(s, m), gs, cur), n)
  }

  lemma ArrangementsDot(t: string, gs: seq<int>, cur: nat)
    ensures Arrangements("." + t, gs, cur)
            == if cur == 0 then Arrangements(t, gs, 0)
               else if gs != [] && gs[0] == cur then Arrangements(t, gs[1..], 0) else 0
  {
    assert ("." + t)[1..] == t;
  }

  lemma ArrangementsHash(t: string, gs: seq<int>, cur: nat)
    ensures Arrangements("#" + t, gs, cur)
            == if gs == [] || cur + 1 > gs[0] then 0 else Arrangements(t, gs, cur + 1)
  {
    assert ("#" + t)[1..] == t;
  }

  lemma ArrangementsQuestion(t: string, gs: seq<int>, cur: nat)
    ensures Arrangements("?" + t, gs, cur)
            == Arrangements("." + t, gs, cur) + Arrangements("#" + t, gs, cur)
  {
    assert ("?" + t)[1..] == t;
  }

  lemma SumOverMasksDot(r: string, gs: seq<int>, cur: nat, n: nat)
    ensures SumOverMasks("." + r, gs, cur, n)
            == if cur == 0 then SumOverMasks(r, gs, 0, n)
               else if gs != [] && gs[0] == cur then SumOverMasks(r, gs[1..], 0, n) else 0
  {
    var gs' := if cur == 0 then gs else if gs != [] && gs[0] == cur then gs[1..] else [];
    var f: nat -> nat := m => Arrangements(Resolve("." + r, m), gs, cur);
    var g: nat -> nat := m => if cur == 0 || (gs != [] && gs[0] == cur) then Arrangements(Resolve(r, m), gs', 0) else 0;
    forall m: nat | m < n ensures f(m) == g(m) {
      ResolveCons('.', r, m);
      ArrangementsDot(Resolve(r, m), gs, cur);
    }
    SumToPointwise(f, g, n);
    if cur == 0 || (gs != [] && gs[0] == cur) {
      SumToPointwise(g, m => Arrangements(Resolve(r, m), gs', 0), n);
    } else {
      SumToZero(g, n);
    }
  }

  lemma {:induction false} SumToZero(f: nat -> nat, n: nat)
    requires forall m: nat | m < n :: f(m) == 0
    ensures SumTo(f, n) == 0
  {
    if n > 0 {
      SumToZero(f, n - 1);
    }
  }

  lemma SumOverMasksHash(r: string, gs: seq<int>, cur: nat, n: nat)
    ensures SumOverMasks("#" + r, gs, cur, n)
            == if gs == [] || cur + 1 > gs[0] then 0 else SumOverMasks(r, gs, cur + 1, n)
  {
    var fits := !(gs == [] || cur + 1 > gs[0]);
    var f: nat -> nat := m => Arrangements(Resolve("#" + r, m), gs, cur);
    var g: nat -> nat := m => if fits then Arrangements(Resolve(r, m), gs, cur + 1) else 0;
    forall m: nat | m < n ensures f(m) == g(m) {
      ResolveCons('#', r, m);
      ArrangementsHash(Resolve(r, m), gs, cur);
    }
    SumToPointwise(f, g, n);
    if fits {
      SumToPointwise(g, m => Arrangements(Resolve(r, m), gs, cur + 1), n);
    } else {
      SumToZero(g, n);
    }
  }

  /** Even masks resolve the leading '?' to '.', odd ones to '#'. */
  lemma SumOverMasksQuestion(r: string, gs: seq<int>, cur: nat, n: nat)
    ensures SumOverMasks("?" + r, gs, cur, 2 * n)
            == SumOverMasks("." + r, gs, cur, n) + SumOverMasks("#" + r, gs, cur, n)
  {
    var f: nat -> nat := m => Arrangements(Resolve("?" + r, m), gs, cur);
    var even: nat -> nat := m => Arrangements(Resolve("." + r, m), gs, cur);
    var odd: nat -> nat := m => Arrangements(Resolve("#" + r, m), gs, cur);
    forall m: nat | m < n ensures f(2 * m) == even(m) && f(2 * m + 1) == odd(m) {
      HalfMask(r, m);
    }
    SumToInterleaved(f, even, odd, n);
  }

  /** Mask 2m resolves a leading '?' like a '.', mask 2m + 1 like a '#'. */
  lemma HalfMask(r: string, m: nat)
    ensures Resolve("?" + r, 2 * m) == Resolve("." + r, m)
    ensures Resolve("?" + r, 2 * m + 1) == Resolve("#" + r, m)
  {
    assert (2 * m) % 2 == 0 && (2 * m) / 2 == m;
    assert (2 * m + 1) % 2 == 1 && (2 * m + 1) / 2 == m;
    ResolveCons('?', r, 2 * m);
    ResolveCons('?', r, 2 * m + 1);
    ResolveCons('.', r, m);
    ResolveCons('#', r, m);
  }


  /** Summing over all masks enumerates exactly the arrangements. */
  lemma {:induction false} MasksEnumerateArrangements(s: string, gs: seq<int>, cur: nat)
    requires IsRow(s)
    ensures SumOverMasks(s, gs, cur, Pow2(QuestionCount(s))) == Arrangements(s, gs, cur)
    decreases |s|
  {
    if s == [] {
      assert SumOverMasks(s, gs, cur, 1) == Arrangements(Resolve(s, 0), gs, cur);
    } else {
      var r := s[1..];
      assert s == [s[0]] + r;
      assert IsRow(r);
      if s[0] == '?' || s[0] == '.' {
        MasksEnumerateArrangements(r, gs, 0);
        MasksEnumerateArrangements(r, if gs == [] then [] else gs[1..], 0);
      }
      if s[0] == '?' || s[0] == '#' {
        MasksEnumerateArrangements(r, gs, cur + 1);
      }
      if s[0] == '?' {
        MasksQuestion(r, gs, cur);
      } else if s[0] == '.' {
        MasksDot(r, gs, cur);
      } else {
        MasksHash(r, gs, cur);
      }
    }
  }

  lemma MasksDot(r: string, gs: seq<int>, cur: nat)
    requires IsRow(r)
    requires SumOverMasks(r, gs, 0, Pow2(QuestionCount(r))) == Arrangements(r, gs, 0)
    requires SumOverMasks(r, if gs == [] then [] else gs[1..], 0, Pow2(QuestionCount(r)))
             == Arrangements(r, if gs == [] then [] else gs[1..], 0)
    ensures SumOverMasks("." + r, gs, cur, Pow2(QuestionCount("." + r))) == Arrangements("." + r, gs, cur)
  {
    assert ("." + r)[1..] == r;
    SumOverMasksDot(r, gs, cur, Pow2(QuestionCount(r)));
    ArrangementsDot(r, gs, cur);
  }

  lemma MasksHash(r: string, gs: seq<int>, cur: nat)
    requires IsRow(r)
    requires SumOverMasks(r, gs, cur + 1, Pow2(QuestionCount(r))) == Arrangements(r, gs, cur + 1)
    ensures SumOverMasks("#" + r, gs, cur, Pow2(QuestionCount("#" + r))) == Arrangements("#" + r, gs, cur)
  {
    assert ("#" + r)[1..] == r;
    SumOverMasksHash(r, gs, cur, Pow2(QuestionCount(r)));
    ArrangementsHash(r, gs, cur);
  }

  lemma MasksQuestion(r: string, gs: seq<int>, cur: nat)
    requires IsRow(r)
    requires SumOverMasks(r, gs, 0, Pow2(QuestionCount(r))) == Arrangements(r, gs, 0)
    requires SumOverMasks(r, if gs == [] then [] else gs[1..], 0, Pow2(QuestionCount(r)))
             == Arrangements(r, if gs == [] then [] else gs[1..], 0)
    requires SumOverMasks(r, gs, cur + 1, Pow2(QuestionCount(r))) == Arrangements(r, gs, cur + 1)
    ensures SumOverMasks("?" + r, gs, cur, Pow2(QuestionCount("?" + r))) == Arrangements("?" + r, gs, cur)
  {
    var n := Pow2(QuestionCount(r));
    assert ("?" + r)[1..] == r;
    assert Pow2(QuestionCount("?" + r)) == 2 * n;
    SumOverMasksQuestion(r, gs, cur, n);
    SumOverMasksDot(r, gs, cur, n);
    SumOverMasksHash(r, gs, cur, n);
    ArrangementsQuestion(r, gs, cur);
    ArrangementsDot(r, gs, cur);
    ArrangementsHash(r, gs, cur);
  }

  lemma {:induction false} CountMatchingIsSum(s: string, gs: seq<int>, n: nat)
    requires IsRow(s) && n <= Pow2(QuestionCount(s))
    ensures CountMatching(Variations(s)[..n], gs) == SumOverMasks(s, gs, 0, n)
  {
    if n > 0 {
      CountMatchingIsSum(s, gs, n - 1);
      var vs := Variations(s);
      CountMatchingStep(vs, gs, n);
      SumOverMasksStep(s, gs, 0, n);
      assert vs[n - 1] == Resolve(s, n - 1);
      ResolvedCountsOnce(s, gs, n - 1);
    }
  }

  /** A fully resolved variation is one arrangement when its groups match, none otherwise. */
  lemma ResolvedCountsOnce(s: string, gs: seq<int>, mask: nat)
    requires IsRow(s)
    ensures Arrangements(Resolve(s, mask), gs, 0) == if DamagedGroupSizes(Resolve(s, mask)) == gs then 1 else 0
  {
    var t := Resolve(s, mask);
    ResolveIsResolved(s, mask);
    ResolvedArrangements(t, gs, 0);
    assert Hashes(0) + t == t;
  }

  lemma CountMatchingStep(vs: seq<string>, gs: seq<int>, n: nat)
    requires 0 < n <= |vs|
    ensures CountMatching(vs[..n], gs)
            == CountMatching(vs[..n - 1], gs) + (if DamagedGroupSizes(vs[n - 1]) == gs then 1 else 0)
  {
    assert vs[..n][..n - 1] == vs[..n - 1];
    assert vs[..n][n - 1] == vs[n - 1];
  }

  lemma SumOverMasksStep(s: string, gs: seq<int>, cur: nat, n: nat)
    requires 0 < n
    ensures SumOverMasks(s, gs, cur, n) == SumOverMasks(s, gs, cur, n - 1) + Arrangements(Resolve(s, n - 1), gs, cur)
  {
  }

  /** The oracle counts exactly the arrangements. */
  lemma ExhaustiveIsArrangements(s: string, gs: seq<int>)
    requires IsRow(s)
    ensures CountExhaustively(s, gs) == Arrangements(s, gs, 0)
  {
    var vs := Variations(s);
    CountMatchingIsSum(s, gs, |vs|);
    assert vs[..|vs|] == vs;
    MasksEnumerateArrangements(s, gs, 0);
  }

  /** The oracle on a row without unknowns: 1 if its groups are the wanted ones, else 0. */
  lemma FullyKnownRow(s: string, gs: seq<int>)
    requires IsResolved(s)
    ensures CountExhaustively(s, gs) == if DamagedGroupSizes(s) == gs then 1 else 0
  {
    assert IsRow(s);
    ExhaustiveIsArrangements(s, gs);
    ResolvedArrangements(s, gs, 0);
    assert Hashes(0) + s == s;
  }

  /** The oracle on a row of '.' and '?' only, with no groups wanted: just the all-'.' one. */
  lemma NoDamageNoGroups(s: string)
    requires IsRow(s) && '#' !in s
    ensures CountExhaustively(s, []) == 1
  {
    ExhaustiveIsArrangements(s, []);
    NoGroupsArrangements(s);
  }

  /** With no groups wanted, a row has one arrangement (all '.') unless it holds a '#'. */
  lemma {:induction false} NoGroupsArrangements(s: string)
    requires IsRow(s)
    ensures Arrangements(s, [], 0) == if '#' in s then 0 else 1
    decreases |s|
  {
    if s != [] {
      var r := s[1..];
      assert s == [s[0]] + r;
      assert IsRow(r);
      NoGroupsArrangements(r);
      if s[0] == '?' {
        ArrangementsQuestion(r, [], 0);
        ArrangementsDot(r, [], 0);
        ArrangementsHash(r, [], 0);
      } else if s[0] == '.' {
        ArrangementsDot(r, [], 0);
      }
    }
  }

  // ---------------------------------------------------------------------------------------------
  // The recursion over soft groups: `Counter.countPossibilities`
  // ---------------------------------------------------------------------------------------------

  function TotalLength(conditions: seq<string>): nat
  {
    if conditions == [] then 0 else |conditions[0]| + TotalLength(conditions[1..])
  }

  /** What follows the first soft group once it is joined with the rest. */
  function Tail(rest: seq<string>): string
  {
    if rest == [] then [] else "." + JoinWith(rest, '.')
  }

  lemma JoinFirst(seg: string, rest: seq<string>)
    ensures JoinWith([seg] + rest, '.') == seg + Tail(rest)
  {
    assert ([seg] + rest)[1..] == rest;
  }

  lemma TailArrangements(rest: seq<string>, gs: seq<int>)
    ensures Arrangements(Tail(rest), gs, 0) == Arrangements(JoinWith(rest, '.'), gs, 0)
  {
    if rest != [] {
      ArrangementsDot(JoinWith(rest, '.'), gs, 0);
    }
  }

  /** One term of the split loop: the count after placing the first group to end at `i`. */
  ghost function SplitTerm(seg: string, rest: seq<string>, gs: seq<int>, i: nat): nat
    requires i <= |seg|
  {
    match SplitAt(seg, i)
    case None => 0
    case Some((_, subGroup)) =>
      Arrangements(JoinWith((if |subGroup| > 0 then [subGroup] else []) + rest, '.'), gs, 0)
  }

  /** The split loop's terms for every end position 0..|seg|. */
  ghost function SplitTerms(seg: string, rest: seq<string>, gs: seq<int>): (ts: seq<nat>)
    ensures |ts| == |seg| + 1
  {
    SplitTermsUpTo(seg, rest, gs, |seg| + 1)
  }

  ghost function SplitTermsUpTo(seg: string, rest: seq<string>, gs: seq<int>, n: nat): (ts: seq<nat>)
    requires n <= |seg| + 1
    ensures |ts| == n
  {
    if n == 0 then [] else SplitTermsUpTo(seg, rest, gs, n - 1) + [SplitTerm(seg, rest, gs, n - 1)]
  }

  lemma {:induction false} SplitTermsUpToAt(seg: string, rest: seq<string>, gs: seq<int>, n: nat, i: nat)
    requires i < n <= |seg| + 1
    ensures SplitTermsUpTo(seg, rest, gs, n)[i] == SplitTerm(seg, rest, gs, i)
  {
    if i < n - 1 {
      SplitTermsUpToAt(seg, rest, gs, n - 1, i);
    }
  }

  lemma SplitTermsAt(seg: string, rest: seq<string>, gs: seq<int>, i: nat)
    requires i <= |seg|
    ensures SplitTerms(seg, rest, gs)[i] == SplitTerm(seg, rest, gs, i)
  {
    SplitTermsUpToAt(seg, rest, gs, |seg| + 1, i);
  }

  /** ts[lo] + ... + ts[hi - 1]. */
  function RangeSum(ts: seq<nat>, lo: nat, hi: nat): nat
    requires hi <= |ts|
    decreases hi - lo
  {
    if lo >= hi then 0 else ts[lo] + RangeSum(ts, lo + 1, hi)
  }

  /** The last end position the loop tries: up to the first '#' shifted by the group size. */
  function MaxEnd(seg: string, g: int): (r: int)
    ensures r <= |seg|
    ensures g <= |seg| ==> g <= r
  {
    if ContainsKnown(seg) then Min(IndexOfFirstKnown(seg) + g, |seg|) else |seg|
  }

  /** SplitTerm in terms of what follows the end position. */
  lemma SplitTermMeaning(seg: string, rest: seq<string>, gs: seq<int>, i: nat)
    requires i <= |seg|
    ensures SplitTerm(seg, rest, gs, i)
            == if i == |seg| then Arrangements(JoinWith(rest, '.'), gs, 0)
               else if seg[i] == '?' then Arrangements(seg[i + 1..] + Tail(rest), gs, 0)
               else 0
  {
    if i < |seg| && seg[i] == '?' {
      var sub := seg[i + 1..];
      assert SplitAt(seg, i) == Some((seg[..i], sub));
      if |sub| > 0 {
        JoinFirst(sub, rest);
      } else {
        assert sub + Tail(rest) == Tail(rest);
        assert [] + rest == rest;
        TailArrangements(rest, gs);
      }
    } else if i == |seg| {
      assert [] + rest == rest;
    }
  }

  /**
   * Once a group of size g has started at position p of the soft group and c of its springs
   * are placed (q = p + c), the count is the loop term for the end position p + g.
   */
  lemma {:induction false} GroupRun(seg: string, rest: seq<string>, g: int, gs: seq<int>, p: nat, c: nat)
    requires IsSoftGroup(seg)
    requires 1 <= c <= g && p + c <= |seg|
    ensures Arrangements(seg[p + c..] + Tail(rest), [g] + gs, c)
            == if p + g <= |seg| then SplitTerm(seg, rest, gs, p + g) else 0
    decreases |seg| - (p + c)
  {
    var q := p + c;
    var y := Tail(rest);
    if q == |seg| {
      assert seg[q..] + y == y;
      if p + g <= |seg| { SplitTermMeaning(seg, rest, gs, p + g); }
      if rest == [] {
        assert y == [];
        assert ([g] + gs == [c]) <==> (g == c && gs == []);
      } else {
        ArrangementsDot(JoinWith(rest, '.'), [g] + gs, c);
        assert ([g] + gs)[1..] == gs;
      }
    } else {
      var t := seg[q + 1..] + y;
      assert seg[q..] + y == [seg[q]] + t;
      if c < g {
        GroupRun(seg, rest, g, gs, p, c + 1);
        assert seg[q + 1..] == seg[p + (c + 1)..];
        ArrangementsHash(t, [g] + gs, c);
        if seg[q] == '?' {
          ArrangementsQuestion(t, [g] + gs, c);
          ArrangementsDot(t, [g] + gs, c);
        }
      } else {
        SplitTermMeaning(seg, rest, gs, q);
        ArrangementsHash(t, [g] + gs, c);
        if seg[q] == '?' {
          ArrangementsQuestion(t, [g] + gs, c);
          ArrangementsDot(t, [g] + gs, c);
          assert ([g] + gs)[1..] == gs;
        }
      }
    }
  }

  /** The terms ts[j+g].. for group starts j.., as long as no '#' has been skipped. */
  function StartSum(seg: string, ts: seq<nat>, g: int, j: nat): nat
    requires j <= |seg| && |ts| == |seg| + 1
    decreases |seg| - j
  {
    if j == |seg| then 0
    else
      (if 0 <= j + g <= |seg| then ts[j + g] else 0)
      + (if seg[j] == '#' then 0 else StartSum(seg, ts, g, j + 1))
  }

  /** Scanning the soft group from position j: either the first group starts somewhere ahead,
      or (if no '#' lies ahead) the whole remainder is operational. */
  lemma {:induction false} ScanSoftGroup(seg: string, rest: seq<string>, g: int, gs: seq<int>, j: nat)
    requires IsSoftGroup(seg) && g >= 1 && j <= |seg|
    ensures Arrangements(seg[j..] + Tail(rest), [g] + gs, 0)
            == (if '#' in seg[j..] then 0 else Arrangements(JoinWith(rest, '.'), [g] + gs, 0))
               + StartSum(seg, SplitTerms(seg, rest, gs), g, j)
    decreases |seg| - j
  {
    var y := Tail(rest);
    if j == |seg| {
      assert seg[j..] + y == y;
      TailArrangements(rest, [g] + gs);
    } else {
      var t := seg[j + 1..] + y;
      assert seg[j..] + y == [seg[j]] + t;
      assert seg[j..] == [seg[j]] + seg[j + 1..];
      ScanSoftGroup(seg, rest, g, gs, j + 1);
      var ts := SplitTerms(seg, rest, gs);
      if j + g <= |seg| {
        SplitTermsAt(seg, rest, gs, j + g);
      }
      assert StartSum(seg, ts, g, j)
             == (if j + g <= |seg| then SplitTerm(seg, rest, gs, j + g) else 0)
                + (if seg[j] == '#' then 0 else StartSum(seg, ts, g, j + 1));
      ArrangementsHash(t, [g] + gs, 0);
      GroupRun(seg, rest, g, gs, j, 1);
      if seg[j] == '?' {
        ArrangementsQuestion(t, [g] + gs, 0);
        ArrangementsDot(t, [g] + gs, 0);
      }
    }
  }

  lemma RangeSumFront(ts: seq<nat>, lo: nat, hi: nat)
    requires lo < hi <= |ts|
    ensures RangeSum(ts, lo, hi) == ts[lo] + RangeSum(ts, lo + 1, hi)
  {
  }

  lemma RangeSumEmpty(ts: seq<nat>, lo: nat, hi: nat)
    requires hi <= lo && hi <= |ts|
    ensures RangeSum(ts, lo, hi) == 0
  {
  }

  /** One past the last end position worth trying when the first group starts at j or later. */
  function EndBound(seg: string, g: int, j: nat): (hi: int)
    requires j <= |seg|
    ensures hi <= |seg| + 1
  {
    if '#' in seg[j..] then Min(j + IndexOfFirstKnown(seg[j..]) + g, |seg|) + 1 else |seg| + 1
  }

  lemma EndBoundStep(seg: string, g: int, j: nat)
    requires j < |seg| && g >= 1
    ensures seg[j] == '#' ==> EndBound(seg, g, j) == Min(j + g, |seg|) + 1
    ensures seg[j] != '#' ==> EndBound(seg, g, j) == EndBound(seg, g, j + 1)
    ensures seg[j] != '#' ==> EndBound(seg, g, j) >= Min(j + g, |seg|) + 1
  {
    assert seg[j..] == [seg[j]] + seg[j + 1..];
    if seg[j] != '#' && '#' in seg[j + 1..] {
      assert IndexOfFirstKnown(seg[j..]) == IndexOfFirstKnown(seg[j + 1..]) + 1;
    }
  }

  /** Re-indexing: group starts j.. are end positions j+g.., cut at the first '#'. */
  lemma {:induction false} StartSumIsRangeSum(seg: string, ts: seq<nat>, g: int, j: nat)
    requires |ts| == |seg| + 1 && g >= 1 && j <= |seg|
    ensures StartSum(seg, ts, g, j) == RangeSum(ts, j + g, EndBound(seg, g, j))
    decreases |seg| - j
  {
    var hi := EndBound(seg, g, j);
    if j == |seg| {
      RangeSumEmpty(ts, j + g, hi);
    } else {
      EndBoundStep(seg, g, j);
      if seg[j] == '#' {
        if j + g <= |seg| {
          RangeSumFront(ts, j + g, hi);
          RangeSumEmpty(ts, j + g + 1, hi);
        } else {
          RangeSumEmpty(ts, j + g, hi);
        }
      } else {
        StartSumIsRangeSum(seg, ts, g, j + 1);
        if j + g <= |seg| {
          RangeSumFront(ts, j + g, hi);
        } else {
          RangeSumEmpty(ts, j + g, hi);
          RangeSumEmpty(ts, j + 1 + g, hi);
        }
      }
    }
  }

  /** The arrangements with the first soft group left all operational: none if it holds a '#'. */
  ghost function Skipped(conditions: seq<string>, groupSizes: seq<int>): nat
    requires conditions != []
  {
    if ContainsKnown(conditions[0]) then 0 else Arrangements(JoinWith(conditions[1..], '.'), groupSizes, 0)
  }

  /**
   * The recurrence behind `countPossibilities`: for a first soft group `seg` and a first group
   * size g, the count is the sum of the loop terms for the end positions g..MaxEnd(seg, g),
   * plus, if `seg` holds no '#', the count with `seg` left all operational.
   */
  lemma SegmentStep(conditions: seq<string>, groupSizes: seq<int>)
    requires conditions != [] && groupSizes != []
    requires IsSoftGroup(conditions[0]) && groupSizes[0] >= 1
    ensures Arrangements(JoinWith(conditions, '.'), groupSizes, 0)
            == Skipped(conditions, groupSizes)
               + RangeSum(SplitTerms(conditions[0], conditions[1..], groupSizes[1..]),
                          groupSizes[0], MaxEnd(conditions[0], groupSizes[0]) + 1)
  {
    SegmentStepFor(conditions, groupSizes, JoinWith(conditions, '.'), conditions[0], conditions[1..], groupSizes[0], groupSizes[1..]);
  }

  /** `SegmentStep` with the line, its first soft group, the other groups and the first size named. */
  lemma SegmentStepFor(conditions: seq<string>, sizes: seq<int>, line: string, seg: string, rest: seq<string>, g: int, gs: seq<int>)
    requires conditions != [] && line == JoinWith(conditions, '.') && seg == conditions[0] && rest == conditions[1..]
    requires sizes != [] && g == sizes[0] && gs == sizes[1..] && IsSoftGroup(seg) && g >= 1
    ensures Arrangements(line, sizes, 0) == Skipped(conditions, sizes) + RangeSum(SplitTerms(seg, rest, gs), g, MaxEnd(seg, g) + 1)
  {
    JoinFirstOf(conditions);
    ConsParts(sizes);
    ScanWhole(seg, rest, g, gs);
    StartSumWhole(seg, SplitTerms(seg, rest, gs), g);
  }

  lemma JoinFirstOf(conditions: seq<string>)
    requires conditions != []
    ensures JoinWith(conditions, '.') == conditions[0] + Tail(conditions[1..])
  {
    ConsParts(conditions);
    JoinFirst(conditions[0], conditions[1..]);
  }

  lemma ScanWhole(seg: string, rest: seq<string>, g: int, gs: seq<int>)
    requires IsSoftGroup(seg) && g >= 1
    ensures Arrangements(seg + Tail(rest), [g] + gs, 0)
            == (if ContainsKnown(seg) then 0 else Arrangements(JoinWith(rest, '.'), [g] + gs, 0))
               + StartSum(seg, SplitTerms(seg, rest, gs), g, 0)
  {
    ScanSoftGroup(seg, rest, g, gs, 0);
    assert seg[0..] == seg;
  }

  lemma StartSumWhole(seg: string, ts: seq<nat>, g: int)
    requires |ts| == |seg| + 1 && g >= 1
    ensures StartSum(seg, ts, g, 0) == RangeSum(ts, g, MaxEnd(seg, g) + 1)
  {
    StartSumIsRangeSum(seg, ts, g, 0);
    assert seg[0..] == seg;
  }

  lemma ConsParts<T>(xs: seq<T>)
    requires xs != []
    ensures [xs[0]] + xs[1..] == xs
  {
  }

  /** No groups left: 1 if no soft group holds a '#', 0 otherwise. */
  lemma NoGroupsLeft(conditions: seq<string>)
    requires forall k | 0 <= k < |conditions| :: IsSoftGroup(conditions[k])
    ensures Arrangements(JoinWith(conditions, '.'), [], 0) == if AnyContainsKnown(conditions) then 0 else 1
  {
    JoinIsRow(conditions);
    NoGroupsArrangements(JoinWith(conditions, '.'));
    JoinContainsKnown(conditions);
  }

  lemma JoinIsRow(conditions: seq<string>)
    requires forall k | 0 <= k < |conditions| :: IsSoftGroup(conditions[k])
    ensures IsRow(JoinWith(conditions, '.'))
  {
    if |conditions| > 1 {
      JoinIsRow(conditions[1..]);
    }
  }

  lemma JoinContainsKnown(conditions: seq<string>)
    ensures '#' in JoinWith(conditions, '.') <==> AnyContainsKnown(conditions)
  {
    if |conditions| > 1 {
      JoinContainsKnown(conditions[1..]);
      var j := JoinWith(conditions, '.');
      assert j == conditions[0] + "." + JoinWith(conditions[1..], '.');
      if AnyContainsKnown(conditions) {
        var k :| 0 <= k < |conditions| && ContainsKnown(conditions[k]);
        if k > 0 { assert ContainsKnown(conditions[1..][k - 1]); }
      }
      if AnyContainsKnown(conditions[1..]) {
        var k :| 0 <= k < |conditions[1..]| && ContainsKnown(conditions[1..][k]);
        assert ContainsKnown(conditions[k + 1]);
      }
    } else if |conditions| == 1 {
      assert ContainsKnown(conditions[0]) <==> AnyContainsKnown(conditions);
    }
  }

  /** Groups left but no soft groups: nothing fits. */
  lemma NoSoftGroupsLeft(gs: seq<int>)
    requires gs != []
    ensures Arrangements(JoinWith([], '.'), gs, 0) == 0
  {
  }

  /** A first soft group shorter than the first group: 0 if it holds a '#', else skip it. */
  lemma ShortSoftGroup(conditions: seq<string>, groupSizes: seq<int>)
    requires conditions != [] && groupSizes != []
    requires IsSoftGroup(conditions[0]) && groupSizes[0] >= 1 && |conditions[0]| < groupSizes[0]
    ensures Arrangements(JoinWith(conditions, '.'), groupSizes, 0)
            == if ContainsKnown(conditions[0]) then 0 else Arrangements(JoinWith(conditions[1..], '.'), groupSizes, 0)
  {
    SegmentStep(conditions, groupSizes);
    RangeSumEmpty(SplitTerms(conditions[0], conditions[1..], groupSizes[1..]),
                  groupSizes[0], MaxEnd(conditions[0], groupSizes[0]) + 1);
  }

  /** An exact fit: the group fills the soft group, or (with no '#') the soft group is skipped. */
  lemma ExactFit(conditions: seq<string>, groupSizes: seq<int>)
    requires conditions != [] && groupSizes != []
    requires IsSoftGroup(conditions[0]) && groupSizes[0] >= 1 && |conditions[0]| == groupSizes[0]
    ensures Arrangements(JoinWith(conditions, '.'), groupSizes, 0)
            == Arrangements(JoinWith(conditions[1..], '.'), groupSizes[1..], 0)
               + (if ContainsKnown(conditions[0]) then 0 else Arrangements(JoinWith(conditions[1..], '.'), groupSizes, 0))
  {
    var seg, rest, g, gs := conditions[0], conditions[1..], groupSizes[0], groupSizes[1..];
    SegmentStep(conditions, groupSizes);
    assert MaxEnd(seg, g) == g;
    var ts := SplitTerms(seg, rest, gs);
    RangeSumFront(ts, g, g + 1);
    RangeSumEmpty(ts, g + 1, g + 1);
    SplitTermsAt(seg, rest, gs, g);
    SplitTermMeaning(seg, rest, gs, g);
  }

  /**
   * `Counter.countPossibilities` (memoisation dropped): the number of arrangements of the soft
   * groups, joined by '.', that yield the group sizes.
   */
  method CountPossibilities(conditions: seq<string>, groupSizes: seq<int>) returns (count: nat)
    requires forall k | 0 <= k < |conditions| :: IsSoftGroup(conditions[k])
    requires AllPositive(groupSizes)
    ensures count == Arrangements(JoinWith(conditions, '.'), groupSizes, 0)
    decreases TotalLength(conditions), |conditions|, 2
  {
    if |groupSizes| == 0 {
      NoGroupsLeft(conditions);
      return if AnyContainsKnown(conditions) then 0 else 1;
    } else if |conditions| == 0 {
      return 0;
    }

    var firstGroup := conditions[0];
    var firstGroupSize := groupSizes[0];
    var rest := conditions[1..];
    assert TotalLength(conditions) == |firstGroup| + TotalLength(rest);

    if |firstGroup| < firstGroupSize {
      ShortSoftGroup(conditions, groupSizes);
      if ContainsKnown(firstGroup) {
        count := 0;
      } else {
        count := CountPossibilities(rest, groupSizes);
      }
    } else if |firstGroup| > firstGroupSize {
      count := CountLongerSoftGroup(conditions, groupSizes);
    } else {
      ExactFit(conditions, groupSizes);
      count := CountPossibilities(rest, groupSizes[1..]);
      if !ContainsKnown(firstGroup) {
        var c := CountPossibilities(rest, groupSizes);
        count := count + c;
      }
    }
  }

  /**
   * The branch of `countPossibilities` where the first soft group is longer than the first
   * group: try every end position of the first group, then (with no '#') skip the soft group.
   */
  method CountLongerSoftGroup(conditions: seq<string>, groupSizes: seq<int>) returns (count: nat)
    requires forall k | 0 <= k < |conditions| :: IsSoftGroup(conditions[k])
    requires AllPositive(groupSizes)
    requires conditions != [] && groupSizes != [] && |conditions[0]| > groupSizes[0]
    ensures count == Arrangements(JoinWith(conditions, '.'), groupSizes, 0)
    decreases TotalLength(conditions), |conditions|, 1
  {
    var firstGroup := conditions[0];
    var firstGroupSize := groupSizes[0];
    var rest := conditions[1..];
    var restSizes := groupSizes[1..];
    assert TotalLength(conditions) == |firstGroup| + TotalLength(rest);

    count := 0;
    var maxLength := MaxEnd(firstGroup, firstGroupSize);
    ghost var ts := SplitTerms(firstGroup, rest, restSizes);
    for i := firstGroupSize to maxLength + 1
      invariant count + RangeSum(ts, i, maxLength + 1) == RangeSum(ts, firstGroupSize, maxLength + 1)
    {
      RangeSumFront(ts, i, maxLength + 1);
      SplitTermsAt(firstGroup, rest, restSizes, i);
      var c := CountEndingAt(firstGroup, rest, restSizes, i);
      ghost var before := count;
      count := count + c;
      assert count + RangeSum(ts, i + 1, maxLength + 1) == before + RangeSum(ts, i, maxLength + 1);
    }
    RangeSumEmpty(ts, maxLength + 1, maxLength + 1);
    assert count == RangeSum(ts, firstGroupSize, maxLength + 1);
    SegmentStep(conditions, groupSizes);
    if !ContainsKnown(firstGroup) {
      var c := CountPossibilities(rest, groupSizes);
      count := count + c;
    }
  }



  /** One pass of the split loop: the first group placed so that it ends at `i`. */
  method CountEndingAt(firstGroup: string, rest: seq<string>, restSizes: seq<int>, i: nat) returns (c: nat)
    requires IsSoftGroup(firstGroup) && forall k | 0 <= k < |rest| :: IsSoftGroup(rest[k])
    requires AllPositive(restSizes)
    requires 1 <= i <= |firstGroup|
    ensures c == SplitTerm(firstGroup, rest, restSizes, i)
    decreases |firstGroup| + TotalLength(rest), |rest| + 1, 0
  {
    var split := SplitAt(firstGroup, i);
    if split.None? {
      return 0;
    }
    var subGroup := split.value.1;
    var conditionList := if |subGroup| > 0 then [subGroup] else [];
    SubGroupFits(firstGroup, rest, i, subGroup);
    c := CountPossibilities(conditionList + rest, restSizes);
  }

  /** Taking the first soft group and the first size apart. */
  lemma FirstSoftGroup(conditions: seq<string>, groupSizes: seq<int>)
    requires conditions != [] && groupSizes != []
    ensures conditions == [conditions[0]] + conditions[1..]
    ensures groupSizes == [groupSizes[0]] + groupSizes[1..]
    ensures TotalLength(conditions) == |conditions[0]| + TotalLength(conditions[1..])
  {
  }

  /** What is left of a soft group after a split is a shorter soft group. */
  lemma SubGroupFits(seg: string, rest: seq<string>, i: nat, subGroup: string)
    requires IsSoftGroup(seg) && forall k | 0 <= k < |rest| :: IsSoftGroup(rest[k])
    requires 1 <= i <= |seg| && SplitAt(seg, i) != None && SplitAt(seg, i).value.1 == subGroup
    ensures var list := (if |subGroup| > 0 then [subGroup] else []) + rest;
            && (forall k | 0 <= k < |list| :: IsSoftGroup(list[k]))
            && TotalLength(list) < |seg| + TotalLength(rest)
  {
    if |subGroup| > 0 {
      assert subGroup == seg[i + 1..];
      assert ([subGroup] + rest)[1..] == rest;
    } else {
      assert [] + rest == rest;
    }
  }


  // ---------------------------------------------------------------------------------------------
  // The entry points: `countRecursively`, the unfolding of part 2, and the sums
  // ---------------------------------------------------------------------------------------------

  /** Dots only separate groups: collapsing them into the soft-group split keeps the count. */
  lemma {:induction false} SoftGroupsKeepArrangements(s: string, gs: seq<int>)
    requires IsRow(s)
    ensures Arrangements(JoinWith(SoftGroups(s), '.'), gs, 0) == Arrangements(s, gs, 0)
  {
    forall gs' ensures Arrangements(JoinWith(NonEmptyPieces(Split(s, '.')), '.'), gs', 0)
                       == Arrangements(s, gs', 0) {
      SplitDropsDots(s, gs');
    }
  }

  lemma AppendDot(p: string, gs: seq<int>, cur: nat)
    ensures Arrangements(p + ".", gs, cur) == Arrangements(p, gs, cur)
    decreases |p|, if p != [] && p[0] == '?' then 1 else 0
  {
    if p == [] {
      assert p + "." == "." + [];
      ArrangementsDot([], gs, cur);
    } else {
      var r := p[1..];
      assert p + "." == [p[0]] + (r + ".");
      assert p == [p[0]] + r;
      if p[0] == '.' {
        ArrangementsDot(r + ".", gs, cur);
        ArrangementsDot(r, gs, cur);
        AppendDot(r, gs, 0);
        AppendDot(r, if gs == [] then [] else gs[1..], 0);
      } else if p[0] == '#' {
        ArrangementsHash(r + ".", gs, cur);
        ArrangementsHash(r, gs, cur);
        AppendDot(r, gs, cur + 1);
      } else if p[0] == '?' {
        ArrangementsQuestion(r + ".", gs, cur);
        ArrangementsQuestion(r, gs, cur);
        AppendDot("." + r, gs, cur);
        AppendDot("#" + r, gs, cur);
        assert "." + r + "." == "." + (r + ".");
        assert "#" + r + "." == "#" + (r + ".");
      }
    }
  }

  /** Two suffixes with the same counts after a '.' can be exchanged behind any prefix. */
  lemma {:induction false} ExchangeAfterDot(p: string, a: string, b: string, gs: seq<int>, cur: nat)
    requires forall x :: Arrangements(a, x, 0) == Arrangements(b, x, 0)
    ensures Arrangements(p + "." + a, gs, cur) == Arrangements(p + "." + b, gs, cur)
    decreases |p|, if p != [] && p[0] == '?' then 1 else 0
  {
    if p == [] {
      assert p + "." + a == "." + a && p + "." + b == "." + b;
      ArrangementsDot(a, gs, cur);
      ArrangementsDot(b, gs, cur);
    } else {
      var r := p[1..];
      assert p + "." + a == [p[0]] + (r + "." + a);
      assert p + "." + b == [p[0]] + (r + "." + b);
      if p[0] == '.' {
        ArrangementsDot(r + "." + a, gs, cur);
        ArrangementsDot(r + "." + b, gs, cur);
        ExchangeAfterDot(r, a, b, gs, 0);
        ExchangeAfterDot(r, a, b, if gs == [] then [] else gs[1..], 0);
      } else if p[0] == '#' {
        ArrangementsHash(r + "." + a, gs, cur);
        ArrangementsHash(r + "." + b, gs, cur);
        ExchangeAfterDot(r, a, b, gs, cur + 1);
      } else if p[0] == '?' {
        ArrangementsQuestion(r + "." + a, gs, cur);
        ArrangementsQuestion(r + "." + b, gs, cur);
        ExchangeAfterDot("." + r, a, b, gs, cur);
        ExchangeAfterDot("#" + r, a, b, gs, cur);
        assert "." + r + "." + a == "." + (r + "." + a);
        assert "." + r + "." + b == "." + (r + "." + b);
        assert "#" + r + "." + a == "#" + (r + "." + a);
        assert "#" + r + "." + b == "#" + (r + "." + b);
      } else {
        assert Arrangements(p + "." + a, gs, cur) == 0;
      }
    }
  }

  lemma {:induction false} SplitDropsDots(s: string, gs: seq<int>)
    ensures Arrangements(JoinWith(NonEmptyPieces(Split(s, '.')), '.'), gs, 0) == Arrangements(s, gs, 0)
    decreases |s|
  {
    if '.' !in s {
      SplitWithoutSep(s);
      assert NonEmptyPieces([s]) == (if s == [] then [] else [s]) + NonEmptyPieces([]);
    } else {
      var i := FirstDot(s);
      var x, z := s[..i], s[i + 1..];
      assert s == x + "." + z;
      SplitAfterPiece(x, z);
      NonEmptyPiecesAppend([x], Split(z, '.'));
      var g' := NonEmptyPieces(Split(z, '.'));
      forall gs' ensures Arrangements(JoinWith(g', '.'), gs', 0) == Arrangements(z, gs', 0) {
        SplitDropsDots(z, gs');
      }
      DropFirstDot(x, z, g', gs);
    }
  }

  lemma DropFirstDot(x: string, z: string, g': seq<string>, gs: seq<int>)
    requires forall gs' :: Arrangements(JoinWith(g', '.'), gs', 0) == Arrangements(z, gs', 0)
    ensures Arrangements(JoinWith(NonEmptyPieces([x]) + g', '.'), gs, 0) == Arrangements(x + "." + z, gs, 0)
  {
    assert NonEmptyPieces([x]) == (if x == [] then [] else [x]) + NonEmptyPieces([]);
    if x == [] {
      assert [] + g' == g';
      ArrangementsDot(z, gs, 0);
      assert x + "." + z == "." + z;
    } else if g' == [] {
      assert JoinWith([x] + g', '.') == x;
      ExchangeAfterDot(x, z, [], gs, 0);
      assert x + "." + [] == x + ".";
      AppendDot(x, gs, 0);
    } else {
      JoinFirst(x, g');
      ExchangeAfterDot(x, z, JoinWith(g', '.'), gs, 0);
    }
  }


  function FirstDot(s: string): (i: nat)
    requires '.' in s
    ensures i < |s| && s[i] == '.' && '.' !in s[..i]
  {
    if s[0] == '.' then 0
    else
      assert '.' in s[1..];
      var i := FirstDot(s[1..]);
      assert s[..i + 1] == [s[0]] + s[1..][..i];
      i + 1
  }

  /**
   * `countRecursively`: the recursion over the soft groups of the row agrees with the
   * brute-force oracle on every row.
   */
  method CountRecursively(conditions: string, groupSizes: seq<int>) returns (count: nat)
    requires IsRow(conditions) && AllPositive(groupSizes)
    ensures count == CountExhaustively(conditions, groupSizes)
  {
    count := CountPossibilities(SoftGroups(conditions), groupSizes);
    SoftGroupsKeepArrangements(conditions, groupSizes);
    ExhaustiveIsArrangements(conditions, groupSizes);
  }

  /** `k` copies of a list, one after the other (Kotlin's `List(k) { xs }.flatten()`). */
  function Copies<T>(xs: seq<T>, k: nat): seq<T>
  {
    if k == 0 then [] else xs + Copies(xs, k - 1)
  }

  /** `k` copies of a row joined by '?' (Kotlin's `List(k) { row }.joinToString("?")`). */
  function JoinedCopies(row: string, k: nat): string
  {
    JoinWith(seq(k, _ => row), '?')
  }

  lemma JoinedCopiesStep(row: string, k: nat)
    requires k >= 2
    ensures JoinedCopies(row, k) == row + "?" + JoinedCopies(row, k - 1)
  {
    assert seq(k, _ => row)[1..] == seq(k - 1, _ => row);
  }

  /** Part 2's unfolding: five copies of the row joined by '?', five copies of the group sizes. */
  function Unfold(conditions: string, groupSizes: seq<int>): (r: (string, seq<int>))
    ensures r.0 == conditions + "?" + conditions + "?" + conditions + "?" + conditions + "?" + conditions
    ensures r.1 == groupSizes + groupSizes + groupSizes + groupSizes + groupSizes
    ensures IsRow(conditions) ==> IsRow(r.0)
    ensures AllPositive(groupSizes) ==> AllPositive(r.1)
  {
    FiveJoinedCopies(conditions);
    FiveCopies(groupSizes);
    UnfoldedRow(conditions);
    (JoinedCopies(conditions, 5), Copies(groupSizes, 5))
  }

  lemma FiveJoinedCopies(c: string)
    ensures JoinedCopies(c, 5) == c + "?" + c + "?" + c + "?" + c + "?" + c
  {
    JoinedCopiesStep(c, 5);
    JoinedCopiesStep(c, 4);
    JoinedCopiesStep(c, 3);
    JoinedCopiesStep(c, 2);
    assert JoinedCopies(c, 1) == c;
  }

  lemma FiveCopies(gs: seq<int>)
    ensures Copies(gs, 5) == gs + gs + gs + gs + gs
  {
    assert Copies(gs, 1) == gs;
    assert Copies(gs, 2) == gs + gs;
    assert Copies(gs, 3) == gs + gs + gs;
    assert Copies(gs, 4) == gs + gs + gs + gs;
  }

  lemma UnfoldedRow(c: string)
    ensures IsRow(c) ==> IsRow(c + "?" + c + "?" + c + "?" + c + "?" + c)
  {
    if IsRow(c) {
      RowsJoin(c, c);
      RowsJoin(c + "?" + c, c);
      RowsJoin(c + "?" + c + "?" + c, c);
      RowsJoin(c + "?" + c + "?" + c + "?" + c, c);
    }
  }

  lemma RowsJoin(a: string, b: string)
    requires IsRow(a) && IsRow(b)
    ensures IsRow(a + "?" + b)
  {
    var j := a + "?" + b;
    forall i | 0 <= i < |j| ensures IsRowChar(j[i]) {
      if i > |a| { assert j[i] == b[i - |a| - 1]; }
    }
  }


  /** Part 1: the sum over all rows of their arrangement counts. */
  method Part1(rows: seq<(string, seq<int>)>) returns (total: nat)
    requires forall k | 0 <= k < |rows| :: IsRow(rows[k].0) && AllPositive(rows[k].1)
    ensures total == TotalExhaustive(rows)
  {
    total := 0;
    for k := 0 to |rows|
      invariant total == TotalExhaustive(rows[..k])
    {
      var c := CountRecursively(rows[k].0, rows[k].1);
      assert rows[..k + 1][..k] == rows[..k];
      total := total + c;
    }
    assert rows[..|rows|] == rows;
  }

  /** Part 2: the same sum over the unfolded rows. */
  method Part2(rows: seq<(string, seq<int>)>) returns (total: nat)
    requires forall k | 0 <= k < |rows| :: IsRow(rows[k].0) && AllPositive(rows[k].1)
    ensures total == TotalExhaustive(UnfoldAll(rows))
  {
    var unfolded := UnfoldAll(rows);
    total := Part1(unfolded);
  }

  function UnfoldAll(rows: seq<(string, seq<int>)>): (r: seq<(string, seq<int>)>)
    requires forall k | 0 <= k < |rows| :: IsRow(rows[k].0) && AllPositive(rows[k].1)
    ensures |r| == |rows|
    ensures forall k | 0 <= k < |rows| :: r[k] == Unfold(rows[k].0, rows[k].1)
    ensures forall k | 0 <= k < |r| :: IsRow(r[k].0) && AllPositive(r[k].1)
  {
    seq(|rows|, k requires 0 <= k < |rows| => Unfold(rows[k].0, rows[k].1))
  }

  /** The specification of both parts: the oracle's counts summed over the rows. */
  function TotalExhaustive(rows: seq<(string, seq<int>)>): nat
    requires forall k | 0 <= k < |rows| :: IsRow(rows[k].0)
  {
    if rows == [] then 0
    else TotalExhaustive(rows[..|rows| - 1]) + CountExhaustively(rows[|rows| - 1].0, rows[|rows| - 1].1)
  }
}
