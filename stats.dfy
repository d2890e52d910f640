/** The window statistics of the anomaly detector, on exact reals: the
    `reduce`/`map` folds of index.tsx that give the mean and the population
    variance (sum of squared deviations over N, not N - 1). */
module Stats {

  /** `s.reduce((a, b) => a + b, 0)`: a left fold, so the last element is
      added last. */
  function Sum(s: seq<real>): real
  {
    if s == [] then 0.0 else Sum(s[..|s| - 1]) + s[|s| - 1]
  }

  /** The mean of the window: the sum over the count. */
  function Mean(s: seq<real>): real
    requires 0 < |s|
  {
    Sum(s) / |s| as real
  }

  /** `Math.pow(x, 2)`, exactly; the split on the sign of `x` lets the
      verifier see that the result is non-negative. */
  function Square(x: real): (r: real)
    ensures 0.0 <= r && r == x * x
  {
    if x < 0.0 then (-x) * (-x) else x * x
  }

  /** The sum of `(x - m)^2` over the samples. */
  function SquaredDeviations(s: seq<real>, m: real): (r: real)
    ensures 0.0 <= r
  {
    if s == [] then 0.0
    else SquaredDeviations(s[..|s| - 1], m) + Square(s[|s| - 1] - m)
  }

  /** The population variance, the square of `stdDev` in `AnomalyDetector.check` (index.tsx). */
  function Variance(s: seq<real>): (v: real)
    requires 0 < |s|
    ensures 0.0 <= v
  {
    SquaredDeviations(s, Mean(s)) / |s| as real
  }

  lemma MulPositive(x: real, y: real)
    requires 0.0 < x && 0.0 < y
    ensures 0.0 < x * y
  {
  }

  lemma MulNonNegative(x: real, y: real)
    requires 0.0 <= x && 0.0 <= y
    ensures 0.0 <= x * y
  {
  }

  /** `k` copies of `c`. */
  function Repeat(c: real, k: nat): (s: seq<real>)
    ensures |s| == k && forall i | 0 <= i < k :: s[i] == c
  {
    seq(k, _ => c)
  }

  /** Samples that all lie in `[lo, hi]` sum to between `|s| * lo` and `|s| * hi`. */
  lemma {:induction false} SumBounds(s: seq<real>, lo: real, hi: real)
    requires forall i | 0 <= i < |s| :: lo <= s[i] <= hi
    ensures |s| as real * lo <= Sum(s) <= |s| as real * hi
  {
    if s != [] {
      SumBounds(s[..|s| - 1], lo, hi);
    }
  }

  /** The mean of samples in `[lo, hi]` is in `[lo, hi]`. */
  lemma MeanBounds(s: seq<real>, lo: real, hi: real)
    requires 0 < |s|
    requires forall i | 0 <= i < |s| :: lo <= s[i] <= hi
    ensures lo <= Mean(s) <= hi
  {
    SumBounds(s, lo, hi);
    var n := |s| as real;
    assert Mean(s) * n == Sum(s);
  }

  /** `k` copies of `c` sum to `k * c`, and deviate from `m` by `k * (c - m)^2`. */
  lemma {:induction false} RepeatSums(c: real, k: nat, m: real)
    ensures Sum(Repeat(c, k)) == k as real * c
    ensures SquaredDeviations(Repeat(c, k), m) == k as real * Square(c - m)
  {
    if k > 0 {
      assert Repeat(c, k)[..k - 1] == Repeat(c, k - 1);
      RepeatSums(c, k - 1, m);
    }
  }

  /** A window of equal samples has that sample as its mean and no variance. */
  lemma ConstantStatistics(s: seq<real>)
    requires 0 < |s| && forall i | 0 <= i < |s| :: s[i] == s[0]
    ensures Mean(s) == s[0] && Variance(s) == 0.0
  {
    assert s == Repeat(s[0], |s|);
    RepeatSums(s[0], |s|, s[0]);
  }
}
