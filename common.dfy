/** Small shared vocabulary: an optional value and integer helpers used by several days. */
module Common {

  /** A value that may be absent (Kotlin's nullable results). */
  datatype Option<+T> = None | Some(value: T)

  function Min(a: int, b: int): int { if a <= b then a else b }

  function Max(a: int, b: int): int { if a >= b then a else b }

  function Abs(a: int): int { if a < 0 then -a else a }

  /** 2 to the power k. */
  function Pow2(k: nat): (r: nat)
    ensures r >= 1
  {
    if k == 0 then 1 else 2 * Pow2(k - 1)
  }

  /** Sum of a list of integers (Kotlin's `sum()`). */
  function Sum(xs: seq<int>): int
  {
    if xs == [] then 0 else Sum(xs[..|xs| - 1]) + xs[|xs| - 1]
  }

  /** Concatenation is associative. */
  lemma ConcatAssociative<T>(a: seq<T>, b: seq<T>, c: seq<T>)
    ensures a + (b + c) == (a + b) + c
  {
  }

  /** A sequence that starts with `pipe + [x]` starts with `pipe`. */
  lemma PrefixOfAppend<T>(r: seq<T>, pipe: seq<T>, x: T)
    requires |pipe| + 1 <= |r| && r[..|pipe| + 1] == pipe + [x]
    ensures r[..|pipe|] == pipe
  {
    assert r[..|pipe|] == r[..|pipe| + 1][..|pipe|];
  }

  /** No element appears twice. */
  predicate NoDuplicates<T(==)>(s: seq<T>)
  {
    forall i, j | 0 <= i < j < |s| :: s[i] != s[j]
  }

  lemma NoDuplicatesAppend<T>(a: seq<T>, b: seq<T>)
    requires NoDuplicates(a) && NoDuplicates(b) && forall x | x in a :: x !in b
    ensures NoDuplicates(a + b)
  {
    var s := a + b;
    forall i, j | 0 <= i < j < |s|
      ensures s[i] != s[j]
    {
      if j < |a| {
        assert s[i] == a[i] && s[j] == a[j];
      } else if i >= |a| {
        assert s[i] == b[i - |a|] && s[j] == b[j - |a|];
      } else {
        assert s[i] in a && s[j] == b[j - |a|];
      }
    }
  }

  /** A list without duplicates holds each of its elements exactly once. */
  lemma {:induction false} NoDuplicatesOnce<T>(s: seq<T>, x: T)
    requires NoDuplicates(s)
    ensures multiset(s)[x] <= 1
  {
    if s != [] {
      var init := s[..|s| - 1];
      assert s == init + [s[|s| - 1]];
      NoDuplicatesOnce(init, x);
      if s[|s| - 1] == x {
        assert x !in init;
      }
    }
  }

  /** A reordering of a list without duplicates has none either. */
  lemma NoDuplicatesPermutation<T>(a: seq<T>, b: seq<T>)
    requires NoDuplicates(a) && multiset(a) == multiset(b)
    ensures NoDuplicates(b)
  {
    forall i, j | 0 <= i < j < |b|
      ensures b[i] != b[j]
    {
      if b[i] == b[j] {
        var x := b[i];
        assert b == b[..j] + b[j..];
        assert x in b[..j] && x in b[j..];
        assert multiset(b)[x] == multiset(b[..j])[x] + multiset(b[j..])[x];
        NoDuplicatesOnce(a, x);
        assert false;
      }
    }
  }

  /** Kotlin's `indexOf` on a list: the first position holding `x`, or -1. */
  function FirstIndex<T(==)>(xs: seq<T>, x: T): (r: int)
    ensures -1 <= r && (r == -1 <==> x !in xs)
    ensures r >= 0 ==> r < |xs| && xs[r] == x && x !in xs[..r]
  {
    if xs == [] then -1
    else if xs[0] == x then 0
    else
      var i := FirstIndex(xs[1..], x);
      if i == -1 then -1
      else assert xs[..i + 1] == [xs[0]] + xs[1..][..i]; i + 1
  }

  /** Kotlin's `toSet()` on a list, kept in order: the first occurrence of every element. */
  function Distinct<T(==)>(xs: seq<T>): (r: seq<T>)
    ensures NoDuplicates(r) && |r| <= |xs|
    ensures forall x | x in r :: x in xs
    ensures forall x | x in xs :: x in r
  {
    if xs == [] then []
    else
      var d := Distinct(xs[..|xs| - 1]);
      var last := xs[|xs| - 1];
      assert xs == xs[..|xs| - 1] + [last];
      if last in d then d
      else
        NoDuplicatesAppend(d, [last]);
        d + [last]
  }

  /** The number of occurrences of `x` in `xs` (Kotlin's `count { it == x }`). */
  function CountOf<T(==)>(xs: seq<T>, x: T): (r: nat)
    ensures r <= |xs|
  {
    if xs == [] then 0 else CountOf(xs[..|xs| - 1], x) + (if xs[|xs| - 1] == x then 1 else 0)
  }

  /** `CountOf` is the multiplicity of `x` in the multiset of `xs`. */
  lemma {:induction false} CountOfMultiset<T>(xs: seq<T>, x: T)
    ensures CountOf(xs, x) == multiset(xs)[x]
  {
    if xs != [] {
      CountOfMultiset(xs[..|xs| - 1], x);
      assert xs == xs[..|xs| - 1] + [xs[|xs| - 1]];
    }
  }

  /** Counting distributes over concatenation. */
  lemma CountOfAppend<T>(a: seq<T>, b: seq<T>, x: T)
    ensures CountOf(a + b, x) == CountOf(a, x) + CountOf(b, x)
  {
    CountOfMultiset(a + b, x);
    CountOfMultiset(a, x);
    CountOfMultiset(b, x);
  }

  /** The list in reverse order (Kotlin's `reversed()`). */
  function Reverse<X>(xs: seq<X>): (r: seq<X>)
    ensures |r| == |xs| && forall i | 0 <= i < |xs| :: r[i] == xs[|xs| - 1 - i]
  {
    if xs == [] then [] else Reverse(xs[1..]) + [xs[0]]
  }

  /** `f` applied `k` times to `x`. */
  function Iterate<T>(f: T -> T, x: T, k: nat): T
  {
    if k == 0 then x else f(Iterate(f, x, k - 1))
  }

  /** Applying `f` a + k times is applying it k times after applying it a times. */
  lemma {:induction false} IterateAdd<T>(f: T -> T, x: T, a: nat, k: nat)
    ensures Iterate(f, x, a + k) == Iterate(f, Iterate(f, x, a), k)
  {
    if k > 0 {
      IterateAdd(f, x, a, k - 1);
    }
  }

  /**
   * Once the values after `start` and after `i > start` applications coincide, the values repeat
   * with period `i - start` from `start` on.
   */
  lemma {:induction false} IteratePeriodic<T>(f: T -> T, x: T, start: nat, i: nat, m: nat)
    requires start < i <= m && Iterate(f, x, i) == Iterate(f, x, start)
    ensures Iterate(f, x, m) == Iterate(f, x, start + (m - start) % (i - start))
    decreases m
  {
    var period := i - start;
    IterateAdd(f, x, i, m - i);
    IterateAdd(f, x, start, m - i);
    assert Iterate(f, x, m) == Iterate(f, x, m - period);
    ModAddPeriod(m - period - start, period);
    if m - period >= i {
      IteratePeriodic(f, x, start, i, m - period);
    }
  }

  /** Adding the modulus does not change the remainder, and a small value is its own remainder. */
  lemma ModAddPeriod(a: nat, p: nat)
    requires p > 0
    ensures (a + p) % p == a % p
    ensures a < p ==> a % p == a
  {
    ModUnique(a + p, p, a / p + 1, a % p);
    if a < p {
      ModUnique(a, p, 0, a);
    }
  }

  /** The remainder is the unique r in 0..p-1 with x == p * q + r. */
  lemma ModUnique(x: int, p: int, q: int, r: int)
    requires p > 0 && 0 <= r < p && x == p * q + r
    ensures x % p == r
  {
    var q0, r0 := x / p, x % p;
    assert p * (q - q0) == r0 - r by {
      assert p * q0 + r0 == x;
    }
    if q - q0 >= 1 {
      assert false;
    } else if q - q0 <= -1 {
      assert false;
    }
  }

  /** The values after 0, 1, ..., n - 1 applications of `f` to `x`. */
  function Orbit<T>(f: T -> T, x: T, n: nat): (xs: seq<T>)
    ensures |xs| == n
  {
    if n == 0 then [] else Orbit(f, x, n - 1) + [Iterate(f, x, n - 1)]
  }

  lemma {:induction false} OrbitAt<T>(f: T -> T, x: T, n: nat, k: nat)
    requires k < n
    ensures Orbit(f, x, n)[k] == Iterate(f, x, k)
  {
    if k < n - 1 {
      OrbitAt(f, x, n - 1, k);
    }
  }

  /**
   * Once the `i`-th state repeats the `seen`-th, the `n`-th state is among the first `i`: it
   * is the one at the same offset within the cycle.
   */
  lemma OrbitPeriodic<T>(f: T -> T, x: T, seen: nat, i: nat, n: nat, k: nat)
    requires seen < i <= n && Iterate(f, x, i) == Iterate(f, x, seen)
    requires k == seen + (n - seen) % (i - seen)
    ensures k < i && Orbit(f, x, i)[k] == Iterate(f, x, n)
  {
    IteratePeriodic(f, x, seen, i, n);
    var y := Iterate(f, x, k);
    assert Iterate(f, x, n) == y;
    OrbitAt(f, x, i, k);
    assert Orbit(f, x, i)[k] == y;
  }
}
