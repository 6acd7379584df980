/**
 * The inverse-distance-weighting kernel: function `idw` of idw.py.
 *
 * For one target point the kernel weighs every sample by a law of its distance,
 * keeps the strictly positive weights, normalises them in place so that they sum
 * to one and returns the weighted sum of the sample values; a target with no
 * positive weight keeps the zero it was initialised with.
 *
 * The source's law is `1 / distance ** power`. Dafny's reals have no square root
 * and no real exponent, so the model takes the law as a function of the SQUARED
 * distance; `PositiveLaw` holds of `s |-> s^(-power/2)` for every exponent, and
 * `InverseSquareLaw` is the default exponent 2.
 */
module DistanceWeight {

  import Numeric

  /** The weight given to a sample at a squared distance. */
  type Law = real -> real

  /** Squared Euclidean distance between (px, py) and (qx, qy). */
  function SqDist(px: real, py: real, qx: real, qy: real): (d: real)
    ensures d >= 0.0
  {
    Numeric.SquareNonNegative(px - qx);
    Numeric.SquareNonNegative(py - qy);
    (px - qx) * (px - qx) + (py - qy) * (py - qy)
  }

  /** Every sample at positive distance gets a positive weight, as `1 / d ** p` does for every p. */
  ghost predicate PositiveLaw(law: Law)
  {
    forall s :: s > 0.0 ==> law(s) > 0.0
  }

  /** The default `power = 2`: the weight is the reciprocal of the squared distance. */
  ghost predicate InverseSquareLaw(law: Law)
  {
    forall s :: s > 0.0 ==> law(s) == 1.0 / s
  }

  /** Every sample is at positive distance from the target (tx, ty): none lies on it. */
  ghost predicate ApartFrom(x: seq<real>, y: seq<real>, tx: real, ty: real)
    requires |x| == |y|
  {
    forall j :: 0 <= j < |x| ==> SqDist(tx, ty, x[j], y[j]) > 0.0
  }

  /** `weights = 1 / (distances ** power)`: one raw weight per sample. */
  function RawWeights(law: Law, x: seq<real>, y: seq<real>, tx: real, ty: real): seq<real>
    requires |x| == |y|
  {
    seq(|x|, j requires 0 <= j < |x| => law(SqDist(tx, ty, x[j], y[j])))
  }

  /** `nonzero_weights = weights > 0.0`. */
  function Mask(w: seq<real>): seq<bool>
  {
    seq(|w|, j requires 0 <= j < |w| => w[j] > 0.0)
  }

  /** `np.sum(v[m])`, accumulated from the front. */
  function SumWhere(m: seq<bool>, v: seq<real>): real
    requires |m| == |v|
    decreases |v|
  {
    if |v| == 0 then 0.0
    else SumWhere(m[..|v| - 1], v[..|v| - 1]) + (if m[|v| - 1] then v[|v| - 1] else 0.0)
  }

  /** `np.sum(z[m] * v[m])`, accumulated from the front. */
  function DotWhere(m: seq<bool>, z: seq<real>, v: seq<real>): real
    requires |m| == |z| == |v|
    decreases |v|
  {
    if |v| == 0 then 0.0
    else DotWhere(m[..|v| - 1], z[..|v| - 1], v[..|v| - 1])
         + (if m[|v| - 1] then z[|v| - 1] * v[|v| - 1] else 0.0)
  }

  /** The array `w` after `w[m] /= s`. */
  function Normalised(m: seq<bool>, w: seq<real>, s: real): (n: seq<real>)
    requires |m| == |w| && s != 0.0
    ensures |n| == |w|
  {
    seq(|w|, j requires 0 <= j < |w| => if m[j] then w[j] / s else w[j])
  }

  /**
   * The value the loop body of `idw` stores for the target (tx, ty), branch by
   * branch: no positive weight leaves the zero default; otherwise the positive
   * weights are divided by their sum (when that sum is not zero) and the masked
   * dot product with the sample values is taken. The result is the weighted
   * mean over the positive weights, sum z_j w_j / sum w_j, whose denominator
   * is then positive, so the branch that skips the division is never taken.
   */
  function Estimate(law: Law, x: seq<real>, y: seq<real>, z: seq<real>, tx: real, ty: real): (e: real)
    requires |x| == |y| == |z|
    ensures var w := RawWeights(law, x, y, tx, ty);
            var m := Mask(w);
            true in m ==> SumWhere(m, w) > 0.0 && e == DotWhere(m, z, w) / SumWhere(m, w)
    ensures !(true in Mask(RawWeights(law, x, y, tx, ty))) ==> e == 0.0
  {
    var w := RawWeights(law, x, y, tx, ty);
    var m := Mask(w);
    if true in m then
      var s := SumWhere(m, w);
      SumWherePositive(m, w);
      DotWhereNormalised(m, z, w, s);
      DotWhere(m, z, if s != 0.0 then Normalised(m, w, s) else w)
    else 0.0
  }

  // ---------------------------------------------------------------------------
  // The kernel as the source writes it: a loop over the targets.
  // ---------------------------------------------------------------------------

  /**
   * `idw(x, y, z, xi, yi, power, radius)`: `zi` starts as zeros and iteration i
   * writes `zi[i]` only. `radius` is accepted and never read, as in the source.
   */
  method Idw(x: seq<real>, y: seq<real>, z: seq<real>, xi: seq<real>, yi: seq<real>,
             law: Law, radius: real) returns (zi: array<real>)
    requires |x| == |y| == |z| && |xi| == |yi|
    ensures fresh(zi) && zi.Length == |xi|
    ensures forall i :: 0 <= i < |xi| ==> zi[i] == Estimate(law, x, y, z, xi[i], yi[i])
    ensures |x| == 0 ==> forall i :: 0 <= i < zi.Length ==> zi[i] == 0.0
  {
    zi := new real[|xi|](_ => 0.0);
    var i := 0;
    while i < |xi|
      invariant 0 <= i <= |xi|
      invariant forall k :: 0 <= k < i ==> zi[k] == Estimate(law, x, y, z, xi[k], yi[k])
      invariant forall k :: i <= k < |xi| ==> zi[k] == 0.0
    {
      var w := RawWeights(law, x, y, xi[i], yi[i]);
      var weights := new real[|w|](j requires 0 <= j < |w| => w[j]);
      assert weights[..] == w;
      var mask := Mask(weights[..]);
      if true in mask {
        var total := SumWhere(mask, weights[..]);
        if total != 0.0 {
          forall j | 0 <= j < weights.Length && mask[j] {
            weights[j] := weights[j] / total;
          }
          assert weights[..] == Normalised(mask, w, total);
        }
        zi[i] := DotWhere(mask, z, weights[..]);
      }
      i := i + 1;
    }
    if |x| == 0 {
      forall i | 0 <= i < zi.Length ensures zi[i] == 0.0 {
        NoSamplesKeepsZero(law, x, y, z, xi[i], yi[i]);
      }
    }
  }

  // ---------------------------------------------------------------------------
  // Properties of the kernel.
  // ---------------------------------------------------------------------------

  /** With no samples the mask is empty and the zero default is kept. */
  lemma NoSamplesKeepsZero(law: Law, x: seq<real>, y: seq<real>, z: seq<real>, tx: real, ty: real)
    requires |x| == |y| == |z| == 0
    ensures Estimate(law, x, y, z, tx, ty) == 0.0
  {
    assert Mask(RawWeights(law, x, y, tx, ty)) == [];
  }

  /** One step of the accumulation in `DotWhere`. */
  lemma DotWhereLast(m: seq<bool>, z: seq<real>, v: seq<real>)
    requires |m| == |z| == |v| > 0
    ensures var k := |v| - 1;
            DotWhere(m, z, v) == DotWhere(m[..k], z[..k], v[..k]) + (if m[k] then z[k] * v[k] else 0.0)
  {
  }

  /** A sum of selected positive entries is non-negative, and positive once something is selected. */
  lemma {:induction false} SumWherePositive(m: seq<bool>, v: seq<real>)
    requires |m| == |v|
    requires forall j :: 0 <= j < |v| && m[j] ==> v[j] > 0.0
    ensures SumWhere(m, v) >= 0.0
    ensures true in m ==> SumWhere(m, v) > 0.0
  {
    if |v| > 0 {
      var k := |v| - 1;
      SumWherePositive(m[..k], v[..k]);
      if true in m && !m[k] {
        var j :| 0 <= j < |m| && m[j];
        assert m[..k][j];
      }
    }
  }

  /** Dividing the selected entries by s divides their sum by s. */
  lemma {:induction false} SumWhereNormalised(m: seq<bool>, w: seq<real>, s: real)
    requires |m| == |w| && s != 0.0
    ensures SumWhere(m, Normalised(m, w, s)) == SumWhere(m, w) / s
  {
    if |w| > 0 {
      var k := |w| - 1;
      assert Normalised(m, w, s)[..k] == Normalised(m[..k], w[..k], s);
      SumWhereNormalised(m[..k], w[..k], s);
      var a := SumWhere(m[..k], w[..k]);
      var b := if m[k] then w[k] else 0.0;
      Numeric.DivideSum(a, b, s);
    }
  }

  /** Dividing the selected weights by s divides the weighted sum by s. */
  lemma {:induction false} DotWhereNormalised(m: seq<bool>, z: seq<real>, w: seq<real>, s: real)
    requires |m| == |z| == |w| && s != 0.0
    ensures DotWhere(m, z, Normalised(m, w, s)) == DotWhere(m, z, w) / s
  {
    if |w| > 0 {
      var k := |w| - 1;
      var n := Normalised(m, w, s);
      assert n[..k] == Normalised(m[..k], w[..k], s);
      DotWhereNormalised(m[..k], z[..k], w[..k], s);
      DotWhereLast(m, z, n);
      DotWhereLast(m, z, w);
      var a := DotWhere(m[..k], z[..k], w[..k]);
      assert m[k] ==> n[k] == w[k] / s;
      Numeric.QuotientStepAt(a, z[k], w[k], n[k], s, m[k], DotWhere(m, z, n), DotWhere(m, z, w));
    }
  }

  /** With non-negative selected weights, the weighted sum lies between lo and hi times the total weight. */
  lemma {:induction false} DotWhereBounds(m: seq<bool>, z: seq<real>, n: seq<real>, lo: real, hi: real)
    requires |m| == |z| == |n|
    requires forall j :: 0 <= j < |n| && m[j] ==> n[j] >= 0.0 && lo <= z[j] <= hi
    ensures lo * SumWhere(m, n) <= DotWhere(m, z, n) <= hi * SumWhere(m, n)
  {
    if |n| > 0 {
      var k := |n| - 1;
      DotWhereBounds(m[..k], z[..k], n[..k], lo, hi);
      var s := SumWhere(m[..k], n[..k]);
      if m[k] {
        Numeric.ScaleBetween(lo, z[k], hi, n[k]);
        Numeric.Distribute(lo, s, n[k]);
        Numeric.Distribute(hi, s, n[k]);
      }
    }
  }

  /**
   * When some weight is positive, their sum is positive and the weights the
   * source normalises in place are positive on the mask and sum to one.
   */
  lemma NormalisedWeightsSumToOne(law: Law, x: seq<real>, y: seq<real>, tx: real, ty: real)
    requires |x| == |y|
    requires true in Mask(RawWeights(law, x, y, tx, ty))
    ensures var w := RawWeights(law, x, y, tx, ty);
            var m := Mask(w);
            var s := SumWhere(m, w);
            s > 0.0
            && SumWhere(m, Normalised(m, w, s)) == 1.0
            && forall j :: 0 <= j < |w| && m[j] ==> Normalised(m, w, s)[j] > 0.0
  {
    var w := RawWeights(law, x, y, tx, ty);
    var m := Mask(w);
    SumWherePositive(m, w);
    var s := SumWhere(m, w);
    SumWhereNormalised(m, w, s);
    Numeric.DivideSelf(s);
    forall j | 0 <= j < |w| && m[j] ensures Normalised(m, w, s)[j] > 0.0 {
      Numeric.QuotientPositive(w[j], s);
    }
  }

  /**
   * Convexity: if every sample value lies in [lo, hi], so does the stored value
   * of any target with a positive weight; a target without one keeps zero.
   */
  lemma EstimateWithin(law: Law, x: seq<real>, y: seq<real>, z: seq<real>, tx: real, ty: real,
                       lo: real, hi: real)
    requires |x| == |y| == |z|
    requires forall j :: 0 <= j < |z| ==> lo <= z[j] <= hi
    ensures true in Mask(RawWeights(law, x, y, tx, ty)) ==> lo <= Estimate(law, x, y, z, tx, ty) <= hi
    ensures !(true in Mask(RawWeights(law, x, y, tx, ty))) ==> Estimate(law, x, y, z, tx, ty) == 0.0
  {
    var w := RawWeights(law, x, y, tx, ty);
    var m := Mask(w);
    if true in m {
      NormalisedWeightsSumToOne(law, x, y, tx, ty);
      var s := SumWhere(m, w);
      var n := Normalised(m, w, s);
      DotWhereBounds(m, z, n, lo, hi);
    }
  }

  /** Every target's value lies between the smallest and the largest sample value. */
  lemma EstimateWithinSampleRange(law: Law, x: seq<real>, y: seq<real>, z: seq<real>, tx: real, ty: real)
    requires |x| == |y| == |z| > 0
    requires true in Mask(RawWeights(law, x, y, tx, ty))
    ensures Numeric.SeqMin(z) <= Estimate(law, x, y, z, tx, ty) <= Numeric.SeqMax(z)
  {
    EstimateWithin(law, x, y, z, tx, ty, Numeric.SeqMin(z), Numeric.SeqMax(z));
  }

  /** If every sample value is c, every target with a positive weight receives exactly c. */
  lemma EstimateOfConstant(law: Law, x: seq<real>, y: seq<real>, z: seq<real>, tx: real, ty: real, c: real)
    requires |x| == |y| == |z|
    requires forall j :: 0 <= j < |z| ==> z[j] == c
    requires true in Mask(RawWeights(law, x, y, tx, ty))
    ensures Estimate(law, x, y, z, tx, ty) == c
  {
    EstimateWithin(law, x, y, z, tx, ty, c, c);
  }

  /** Under a positive law, a target apart from every sample weighs every sample. */
  lemma AllSamplesWeighted(law: Law, x: seq<real>, y: seq<real>, tx: real, ty: real)
    requires |x| == |y| && PositiveLaw(law) && ApartFrom(x, y, tx, ty)
    ensures forall j :: 0 <= j < |x| ==> Mask(RawWeights(law, x, y, tx, ty))[j]
    ensures |x| > 0 ==> true in Mask(RawWeights(law, x, y, tx, ty))
  {
    var m := Mask(RawWeights(law, x, y, tx, ty));
    if |x| > 0 {
      assert m[0];
    }
  }

  /** A single sample seen from a point apart from it determines the value there. */
  lemma SingleSample(law: Law, x: seq<real>, y: seq<real>, z: seq<real>, tx: real, ty: real)
    requires |x| == |y| == |z| == 1 && PositiveLaw(law) && ApartFrom(x, y, tx, ty)
    ensures Estimate(law, x, y, z, tx, ty) == z[0]
  {
    AllSamplesWeighted(law, x, y, tx, ty);
    EstimateOfConstant(law, x, y, z, tx, ty, z[0]);
  }

  // ---------------------------------------------------------------------------
  // An independent reference: Shepard's formula for power 2.
  // ---------------------------------------------------------------------------

  /** The squared distance from the target to every sample. */
  function SqDists(x: seq<real>, y: seq<real>, tx: real, ty: real): seq<real>
    requires |x| == |y|
  {
    seq(|x|, j requires 0 <= j < |x| => SqDist(tx, ty, x[j], y[j]))
  }

  /** sum_j 1 / d_j. */
  function ReciprocalSum(d: seq<real>): (t: real)
    requires forall j :: 0 <= j < |d| ==> d[j] > 0.0
    ensures |d| > 0 ==> t > 0.0
    decreases |d|
  {
    if |d| == 0 then 0.0
    else
      var k := |d| - 1;
      Numeric.QuotientPositive(1.0, d[k]);
      ReciprocalSum(d[..k]) + 1.0 / d[k]
  }

  /** sum_j z_j / d_j. */
  function ReciprocalWeighted(z: seq<real>, d: seq<real>): real
    requires |z| == |d| && forall j :: 0 <= j < |d| ==> d[j] > 0.0
    decreases |d|
  {
    if |d| == 0 then 0.0
    else
      var k := |d| - 1;
      ReciprocalWeighted(z[..k], d[..k]) + z[k] / d[k]
  }

  /**
   * Inverse-distance-squared interpolation as textbooks state it:
   * (sum_j z_j / d_j^2) / (sum_j 1 / d_j^2).
   */
  function InverseSquareMean(x: seq<real>, y: seq<real>, z: seq<real>, tx: real, ty: real): real
    requires |x| == |y| == |z| > 0 && ApartFrom(x, y, tx, ty)
  {
    var d := SqDists(x, y, tx, ty);
    ReciprocalWeighted(z, d) / ReciprocalSum(d)
  }

  /** The reciprocal law is positive. */
  lemma InverseSquareIsPositive(law: Law)
    requires InverseSquareLaw(law)
    ensures PositiveLaw(law)
  {
    forall s | s > 0.0 ensures law(s) > 0.0 {
      Numeric.QuotientPositive(1.0, s);
    }
  }

  /** Weights that are the reciprocals of d, all selected, sum to the reciprocal sum of d. */
  lemma {:induction false} ReciprocalSums(m: seq<bool>, w: seq<real>, z: seq<real>, d: seq<real>)
    requires |m| == |w| == |z| == |d|
    requires forall j :: 0 <= j < |d| ==> m[j]
    requires forall j :: 0 <= j < |d| ==> d[j] > 0.0 && w[j] == 1.0 / d[j]
    ensures SumWhere(m, w) == ReciprocalSum(d)
    ensures DotWhere(m, z, w) == ReciprocalWeighted(z, d)
  {
    if |d| > 0 {
      var k := |d| - 1;
      ReciprocalSums(m[..k], w[..k], z[..k], d[..k]);
      Numeric.MultiplyQuotient(z[k], 1.0, d[k]);
      DotWhereLast(m, z, w);
    }
  }

  /** Under the power-2 law each raw weight is the reciprocal of its sample's squared distance. */
  lemma InverseSquareWeights(law: Law, x: seq<real>, y: seq<real>, tx: real, ty: real)
    requires |x| == |y| && InverseSquareLaw(law) && ApartFrom(x, y, tx, ty)
    ensures var w := RawWeights(law, x, y, tx, ty);
            var d := SqDists(x, y, tx, ty);
            (forall j :: 0 <= j < |d| ==> Mask(w)[j])
            && (forall j :: 0 <= j < |d| ==> d[j] > 0.0 && w[j] == 1.0 / d[j])
  {
    var w := RawWeights(law, x, y, tx, ty);
    var d := SqDists(x, y, tx, ty);
    forall j | 0 <= j < |d| ensures d[j] > 0.0 && w[j] == 1.0 / d[j] {
      assert w[j] == law(d[j]);
    }
    forall j | 0 <= j < |d| ensures Mask(w)[j] {
      Numeric.QuotientPositive(1.0, d[j]);
    }
  }

  /** Under the power-2 law the masked sums of the kernel are the textbook sums. */
  lemma InverseSquareSums(law: Law, x: seq<real>, y: seq<real>, z: seq<real>, tx: real, ty: real)
    requires |x| == |y| == |z| && InverseSquareLaw(law) && ApartFrom(x, y, tx, ty)
    ensures var w := RawWeights(law, x, y, tx, ty);
            var d := SqDists(x, y, tx, ty);
            SumWhere(Mask(w), w) == ReciprocalSum(d) && DotWhere(Mask(w), z, w) == ReciprocalWeighted(z, d)
  {
    var w := RawWeights(law, x, y, tx, ty);
    var d := SqDists(x, y, tx, ty);
    InverseSquareWeights(law, x, y, tx, ty);
    ReciprocalSums(Mask(w), w, z, d);
  }

  /** The kernel agrees with the textbook power-2 formula at every target apart from the samples. */
  lemma EstimateIsInverseSquareMean(law: Law, x: seq<real>, y: seq<real>, z: seq<real>, tx: real, ty: real)
    requires |x| == |y| == |z| > 0 && InverseSquareLaw(law) && ApartFrom(x, y, tx, ty)
    ensures Estimate(law, x, y, z, tx, ty) == InverseSquareMean(x, y, z, tx, ty)
  {
    InverseSquareWeights(law, x, y, tx, ty);
    assert Mask(RawWeights(law, x, y, tx, ty))[0];
    InverseSquareSums(law, x, y, z, tx, ty);
  }
}
