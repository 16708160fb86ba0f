/**
 * The numeric reductions `compute_statistics` applies to a column of readings: `np.mean`,
 * `np.min`, `np.max`, and the population variance underlying `np.std` (denominator = count).
 * Values are exact reals.
 */
module Statistics {

  function Sum(xs: seq<real>): real
  {
    if xs == [] then 0.0 else Sum(xs[..|xs| - 1]) + xs[|xs| - 1]
  }

  function Mean(xs: seq<real>): real
    requires |xs| > 0
  {
    Sum(xs) / |xs| as real
  }

  function Min(xs: seq<real>): (m: real)
    requires |xs| > 0
    ensures m in xs
    ensures forall i :: 0 <= i < |xs| ==> m <= xs[i]
  {
    if |xs| == 1 then xs[0]
    else
      var rest := Min(xs[..|xs| - 1]);
      if xs[|xs| - 1] < rest then xs[|xs| - 1] else rest
  }

  function Max(xs: seq<real>): (m: real)
    requires |xs| > 0
    ensures m in xs
    ensures forall i :: 0 <= i < |xs| ==> xs[i] <= m
  {
    if |xs| == 1 then xs[0]
    else
      var rest := Max(xs[..|xs| - 1]);
      if xs[|xs| - 1] > rest then xs[|xs| - 1] else rest
  }

  function Product(a: real, b: real): real
  {
    a * b
  }

  function Squared(d: real): real
  {
    Product(d, d)
  }

  /** The sum of squared distances of the values from `centre`. */
  function SquaredDeviations(xs: seq<real>, centre: real): real
  {
    if xs == [] then 0.0
    else SquaredDeviations(xs[..|xs| - 1], centre) + Squared(xs[|xs| - 1] - centre)
  }

  /** Population variance; the standard deviation `np.std` reports is its square root. */
  function Variance(xs: seq<real>): real
    requires |xs| > 0
  {
    SquaredDeviations(xs, Mean(xs)) / |xs| as real
  }

  lemma ProductOfPositives(a: real, b: real)
    requires a > 0.0 && b > 0.0
    ensures Product(a, b) > 0.0
  {
  }

  lemma ProductOfNegatives(a: real, b: real)
    requires a < 0.0 && b < 0.0
    ensures Product(a, b) > 0.0
  {
  }

  lemma SquaredSign(d: real)
    ensures Squared(d) >= 0.0
    ensures Squared(d) == 0.0 <==> d == 0.0
  {
    if d > 0.0 {
      ProductOfPositives(d, d);
    } else if d < 0.0 {
      ProductOfNegatives(d, d);
    }
  }

  /** Dividing a total by a positive count keeps a lower and an upper bound on the average. */
  lemma QuotientBetween(s: real, n: real, lo: real, hi: real)
    requires n > 0.0 && n * lo <= s <= n * hi
    ensures lo <= s / n <= hi
  {
    var q := s / n;
    assert q * n == s;
    assert (lo - q) * n <= 0.0;
    assert (q - hi) * n <= 0.0;
    if q < lo { ProductOfPositives(lo - q, n); }
    if q > hi { ProductOfPositives(q - hi, n); }
  }

  /** Values between `lo` and `hi` add up to between `n * lo` and `n * hi`. */
  lemma {:induction false} SumBetween(xs: seq<real>, lo: real, hi: real)
    requires forall i :: 0 <= i < |xs| ==> lo <= xs[i] <= hi
    ensures |xs| as real * lo <= Sum(xs) <= |xs| as real * hi
  {
    if xs != [] {
      SumBetween(xs[..|xs| - 1], lo, hi);
    }
  }

  /** The average of values between `lo` and `hi` lies between them too. */
  lemma MeanBetween(xs: seq<real>, lo: real, hi: real)
    requires |xs| > 0
    requires forall i :: 0 <= i < |xs| ==> lo <= xs[i] <= hi
    ensures lo <= Mean(xs) <= hi
  {
    SumBetween(xs, lo, hi);
    QuotientBetween(Sum(xs), |xs| as real, lo, hi);
  }

  lemma MeanBetweenMinAndMax(xs: seq<real>)
    requires |xs| > 0
    ensures Min(xs) <= Mean(xs) <= Max(xs)
  {
    MeanBetween(xs, Min(xs), Max(xs));
  }

  lemma {:induction false} SquaredDeviationsNonNegative(xs: seq<real>, centre: real)
    ensures SquaredDeviations(xs, centre) >= 0.0
    ensures SquaredDeviations(xs, centre) == 0.0 <==> forall i :: 0 <= i < |xs| ==> xs[i] == centre
  {
    if xs != [] {
      var init, d := xs[..|xs| - 1], xs[|xs| - 1] - centre;
      SquaredDeviationsNonNegative(init, centre);
      SquaredSign(d);
      var rest := SquaredDeviations(init, centre);
      assert SquaredDeviations(xs, centre) == rest + Squared(d);
      assert (forall i :: 0 <= i < |xs| ==> xs[i] == centre)
         <==> (forall i :: 0 <= i < |init| ==> init[i] == centre) && d == 0.0 by {
        assert forall i :: 0 <= i < |init| ==> xs[i] == init[i];
      }
      assert rest >= 0.0 && (rest == 0.0 <==> forall i :: 0 <= i < |init| ==> init[i] == centre);
    }
  }

  lemma VarianceNonNegative(xs: seq<real>)
    requires |xs| > 0
    ensures Variance(xs) >= 0.0
  {
    SquaredDeviationsNonNegative(xs, Mean(xs));
  }

  /** The population variance is zero exactly when every value is the same. */
  lemma VarianceZeroIffConstant(xs: seq<real>)
    requires |xs| > 0
    ensures Variance(xs) == 0.0 <==> forall i :: 0 <= i < |xs| ==> xs[i] == xs[0]
  {
    var n, mu := |xs| as real, Mean(xs);
    SquaredDeviationsNonNegative(xs, mu);
    assert Variance(xs) * n == SquaredDeviations(xs, mu);
    if forall i :: 0 <= i < |xs| ==> xs[i] == xs[0] {
      SumBetween(xs, xs[0], xs[0]);
      assert Sum(xs) == n * xs[0];
      assert mu == xs[0];
    }
  }
}
