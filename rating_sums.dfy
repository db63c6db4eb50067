/**
 * Sums over the box of rating combinations (x, m, a, s), each coordinate below `n`: the counting
 * vocabulary used to say what the number of accepted rating combinations is.
 */
module RatingSums {

  /** One combination of the four ratings. */
  datatype Rating = Rating(x: nat, m: nat, a: nat, s: nat)

  /** The combinations inside the box `0..n-1` in every coordinate. */
  predicate InBox(p: Rating, n: nat)
  {
    p.x < n && p.m < n && p.a < n && p.s < n
  }

  /** The sum of `g` over the `s` values below `k`, the other three ratings fixed. */
  function SumS(g: Rating -> int, x: nat, m: nat, a: nat, k: nat): int
  {
    if k == 0 then 0 else SumS(g, x, m, a, k - 1) + g(Rating(x, m, a, k - 1))
  }

  function SumA(g: Rating -> int, x: nat, m: nat, n: nat, k: nat): int
  {
    if k == 0 then 0 else SumA(g, x, m, n, k - 1) + SumS(g, x, m, k - 1, n)
  }

  function SumM(g: Rating -> int, x: nat, n: nat, k: nat): int
  {
    if k == 0 then 0 else SumM(g, x, n, k - 1) + SumA(g, x, k - 1, n, n)
  }

  function SumX(g: Rating -> int, n: nat, k: nat): int
  {
    if k == 0 then 0 else SumX(g, n, k - 1) + SumM(g, k - 1, n, n)
  }

  /** The sum of `g` over the whole box. */
  function SumAll(g: Rating -> int, n: nat): int
  {
    SumX(g, n, n)
  }

  /** `g` is `g1 + g2` on the box. */
  ghost predicate Splits(g: Rating -> int, g1: Rating -> int, g2: Rating -> int, n: nat)
  {
    forall p: Rating | InBox(p, n) :: g(p) == g1(p) + g2(p)
  }

  lemma {:induction false} SumSSplits(g: Rating -> int, g1: Rating -> int, g2: Rating -> int, n: nat, x: nat, m: nat, a: nat, k: nat)
    requires Splits(g, g1, g2, n) && x < n && m < n && a < n && k <= n
    ensures SumS(g, x, m, a, k) == SumS(g1, x, m, a, k) + SumS(g2, x, m, a, k)
  {
    if k > 0 {
      SumSSplits(g, g1, g2, n, x, m, a, k - 1);
      assert InBox(Rating(x, m, a, k - 1), n);
    }
  }

  lemma {:induction false} SumASplits(g: Rating -> int, g1: Rating -> int, g2: Rating -> int, n: nat, x: nat, m: nat, k: nat)
    requires Splits(g, g1, g2, n) && x < n && m < n && k <= n
    ensures SumA(g, x, m, n, k) == SumA(g1, x, m, n, k) + SumA(g2, x, m, n, k)
  {
    if k > 0 {
      SumASplits(g, g1, g2, n, x, m, k - 1);
      SumSSplits(g, g1, g2, n, x, m, k - 1, n);
    }
  }

  lemma {:induction false} SumMSplits(g: Rating -> int, g1: Rating -> int, g2: Rating -> int, n: nat, x: nat, k: nat)
    requires Splits(g, g1, g2, n) && x < n && k <= n
    ensures SumM(g, x, n, k) == SumM(g1, x, n, k) + SumM(g2, x, n, k)
  {
    if k > 0 {
      SumMSplits(g, g1, g2, n, x, k - 1);
      SumASplits(g, g1, g2, n, x, k - 1, n);
    }
  }

  lemma {:induction false} SumXSplits(g: Rating -> int, g1: Rating -> int, g2: Rating -> int, n: nat, k: nat)
    requires Splits(g, g1, g2, n) && k <= n
    ensures SumX(g, n, k) == SumX(g1, n, k) + SumX(g2, n, k)
  {
    if k > 0 {
      SumXSplits(g, g1, g2, n, k - 1);
      SumMSplits(g, g1, g2, n, k - 1, n);
    }
  }

  /** The sum is additive: a function that is pointwise the sum of two sums to their sums. */
  lemma SumAllSplits(g: Rating -> int, g1: Rating -> int, g2: Rating -> int, n: nat)
    requires Splits(g, g1, g2, n)
    ensures SumAll(g, n) == SumAll(g1, n) + SumAll(g2, n)
  {
    SumXSplits(g, g1, g2, n, n);
  }

  /** A function that is zero on the box sums to zero. */
  lemma SumAllZero(g: Rating -> int, n: nat)
    requires forall p: Rating | InBox(p, n) :: g(p) == 0
    ensures SumAll(g, n) == 0
  {
    SumAllSplits(g, g, g, n);
  }

  /** Functions that agree on the box have the same sum. */
  lemma SumAllSame(g: Rating -> int, h: Rating -> int, n: nat)
    requires forall p: Rating | InBox(p, n) :: g(p) == h(p)
    ensures SumAll(g, n) == SumAll(h, n)
  {
    var zero := (p: Rating) => 0;
    SumAllSplits(g, h, zero, n);
    SumAllZero(zero, n);
  }

  /** The number of `true` entries among the first `k`. */
  function CountTrueUpTo(t: seq<bool>, k: nat): (c: nat)
    requires k <= |t|
    ensures c <= k
  {
    if k == 0 then 0 else CountTrueUpTo(t, k - 1) + (if t[k - 1] then 1 else 0)
  }

  function CountTrue(t: seq<bool>): nat
  {
    CountTrueUpTo(t, |t|)
  }

  /** The sub-box admitted by four truth arrays of length `n`. */
  predicate Admits(tx: seq<bool>, tm: seq<bool>, ta: seq<bool>, ts: seq<bool>, p: Rating)
    requires InBox(p, |tx|) && |tm| == |ta| == |ts| == |tx|
  {
    tx[p.x] && tm[p.m] && ta[p.a] && ts[p.s]
  }

  /** `g` is the indicator of the sub-box on the box. */
  ghost predicate Indicates(g: Rating -> int, tx: seq<bool>, tm: seq<bool>, ta: seq<bool>, ts: seq<bool>)
    requires |tm| == |ta| == |ts| == |tx|
  {
    forall p: Rating | InBox(p, |tx|) :: g(p) == if Admits(tx, tm, ta, ts, p) then 1 else 0
  }

  lemma {:induction false} BoxS(g: Rating -> int, tx: seq<bool>, tm: seq<bool>, ta: seq<bool>, ts: seq<bool>, x: nat, m: nat, a: nat, k: nat)
    requires |tm| == |ta| == |ts| == |tx| && Indicates(g, tx, tm, ta, ts)
    requires x < |tx| && m < |tx| && a < |tx| && k <= |tx|
    ensures SumS(g, x, m, a, k) == if tx[x] && tm[m] && ta[a] then CountTrueUpTo(ts, k) else 0
  {
    if k > 0 {
      BoxS(g, tx, tm, ta, ts, x, m, a, k - 1);
      assert InBox(Rating(x, m, a, k - 1), |tx|);
    }
  }

  lemma {:induction false} BoxA(g: Rating -> int, tx: seq<bool>, tm: seq<bool>, ta: seq<bool>, ts: seq<bool>, x: nat, m: nat, k: nat)
    requires |tm| == |ta| == |ts| == |tx| && Indicates(g, tx, tm, ta, ts)
    requires x < |tx| && m < |tx| && k <= |tx|
    ensures SumA(g, x, m, |tx|, k) == if tx[x] && tm[m] then CountTrueUpTo(ta, k) * CountTrue(ts) else 0
  {
    if k > 0 {
      BoxA(g, tx, tm, ta, ts, x, m, k - 1);
      BoxS(g, tx, tm, ta, ts, x, m, k - 1, |tx|);
      var c := CountTrueUpTo(ta, k - 1);
      assert (c + 1) * CountTrue(ts) == c * CountTrue(ts) + CountTrue(ts);
    }
  }

  lemma {:induction false} BoxM(g: Rating -> int, tx: seq<bool>, tm: seq<bool>, ta: seq<bool>, ts: seq<bool>, x: nat, k: nat)
    requires |tm| == |ta| == |ts| == |tx| && Indicates(g, tx, tm, ta, ts)
    requires x < |tx| && k <= |tx|
    ensures SumM(g, x, |tx|, k) == if tx[x] then CountTrueUpTo(tm, k) * (CountTrue(ta) * CountTrue(ts)) else 0
  {
    if k > 0 {
      BoxM(g, tx, tm, ta, ts, x, k - 1);
      BoxA(g, tx, tm, ta, ts, x, k - 1, |tx|);
      var c, rest := CountTrueUpTo(tm, k - 1), CountTrue(ta) * CountTrue(ts);
      assert (c + 1) * rest == c * rest + rest;
    }
  }

  lemma {:induction false} BoxX(g: Rating -> int, tx: seq<bool>, tm: seq<bool>, ta: seq<bool>, ts: seq<bool>, k: nat)
    requires |tm| == |ta| == |ts| == |tx| && Indicates(g, tx, tm, ta, ts)
    requires k <= |tx|
    ensures SumX(g, |tx|, k) == CountTrueUpTo(tx, k) * (CountTrue(tm) * (CountTrue(ta) * CountTrue(ts)))
  {
    if k > 0 {
      BoxX(g, tx, tm, ta, ts, k - 1);
      BoxM(g, tx, tm, ta, ts, k - 1, |tx|);
      var c, rest := CountTrueUpTo(tx, k - 1), CountTrue(tm) * (CountTrue(ta) * CountTrue(ts));
      assert (c + 1) * rest == c * rest + rest;
    }
  }

  /** The size of a sub-box is the product of the numbers of admitted values per coordinate. */
  lemma SumAllBox(g: Rating -> int, tx: seq<bool>, tm: seq<bool>, ta: seq<bool>, ts: seq<bool>)
    requires |tm| == |ta| == |ts| == |tx| && Indicates(g, tx, tm, ta, ts)
    ensures SumAll(g, |tx|) == CountTrue(tx) * (CountTrue(tm) * (CountTrue(ta) * CountTrue(ts)))
  {
    BoxX(g, tx, tm, ta, ts, |tx|);
  }
}
