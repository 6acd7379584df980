/** Reductions over real sequences that idw.py takes from numpy (`np.min`, `np.max`). */
module Numeric {

  /** `np.min`: the smallest element; numpy refuses an empty array, hence the precondition. */
  function SeqMin(s: seq<real>): (r: real)
    requires |s| > 0
    ensures r in s
    ensures forall j :: 0 <= j < |s| ==> r <= s[j]
  {
    if |s| == 1 then s[0]
    else
      var t := SeqMin(s[1..]);
      if s[0] <= t then s[0] else t
  }

  /** `np.max`: the largest element. */
  function SeqMax(s: seq<real>): (r: real)
    requires |s| > 0
    ensures r in s
    ensures forall j :: 0 <= j < |s| ==> s[j] <= r
  {
    if |s| == 1 then s[0]
    else
      var t := SeqMax(s[1..]);
      if s[0] >= t then s[0] else t
  }

  // Facts of real arithmetic that the kernel's proofs use one step at a time.

  lemma SquareNonNegative(a: real)
    ensures a * a >= 0.0
  {
  }

  lemma DivideSum(a: real, b: real, s: real)
    requires s != 0.0
    ensures a / s + b / s == (a + b) / s
  {
  }

  lemma MultiplyQuotient(z: real, w: real, s: real)
    requires s != 0.0
    ensures z * (w / s) == (z * w) / s
  {
  }

  lemma QuotientStep(a: real, z: real, w: real, s: real, on: bool)
    requires s != 0.0
    ensures a / s + (if on then z * (w / s) else 0.0) == (a + (if on then z * w else 0.0)) / s
  {
    MultiplyQuotient(z, w, s);
    DivideSum(a, if on then z * w else 0.0, s);
  }

  lemma QuotientStepAt(a: real, z: real, w: real, v: real, s: real, on: bool, dn: real, dw: real)
    requires s != 0.0 && (on ==> v == w / s)
    requires dn == a / s + (if on then z * v else 0.0)
    requires dw == a + (if on then z * w else 0.0)
    ensures dn == dw / s
  {
    QuotientStep(a, z, w, s, on);
  }

  lemma DivideSelf(s: real)
    requires s != 0.0
    ensures s / s == 1.0
  {
  }

  lemma QuotientPositive(a: real, s: real)
    requires a > 0.0 && s > 0.0
    ensures a / s > 0.0
  {
  }

  lemma ScaleBetween(lo: real, v: real, hi: real, n: real)
    requires n >= 0.0 && lo <= v <= hi
    ensures lo * n <= v * n <= hi * n
  {
    assert (v - lo) * n >= 0.0;
    assert (hi - v) * n >= 0.0;
  }

  lemma Distribute(c: real, a: real, b: real)
    ensures c * (a + b) == c * a + c * b
  {
  }

  // Facts the grid's axis and row-major proofs use.

  lemma QuotientTimes(a: real, s: real)
    requires s != 0.0
    ensures (a / s) * s == a
  {
  }

  lemma QuotientNonPositive(a: real, s: real)
    requires a <= 0.0 && s > 0.0
    ensures a / s <= 0.0
  {
  }

  lemma QuotientNegativeStep(a: real, s: real)
    requires a >= 0.0 && s < 0.0
    ensures a / s <= 0.0
  {
  }

  lemma ScaleStrict(a: real, b: real, n: real)
    requires a < b && n > 0.0
    ensures a * n < b * n
  {
    assert (b - a) * n > 0.0;
  }

  lemma ScaleAtLeast(a: real, b: real, n: real)
    requires a <= b && n >= 0.0
    ensures a * n <= b * n
  {
    assert (b - a) * n >= 0.0;
  }

  lemma ScaleStrictNegative(a: real, b: real, n: real)
    requires a < b && n < 0.0
    ensures a * n > b * n
  {
    assert (b - a) * n < 0.0;
  }

  lemma ScaleAtMostNegative(a: real, b: real, n: real)
    requires a <= b && n < 0.0
    ensures a * n >= b * n
  {
    assert (b - a) * n <= 0.0;
  }

  lemma ScaleNonNegative(a: real, n: real)
    requires a >= 0.0 && n >= 0.0
    ensures a * n >= 0.0
  {
  }

  lemma MultiplySuccessor(k: int, w: int)
    ensures (k + 1) * w == k * w + w
  {
  }

  lemma MultiplyCommutes(a: int, b: int)
    ensures a * b == b * a
  {
  }
}
