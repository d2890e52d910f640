/** The sliding-window anomaly detector over the miss-rate series
    (index.tsx, class `AnomalyDetector`). */
module Anomaly {
  import opened Wrappers
  import opened Stats

  /** The text `check` returns when it flags a sample. */
  const SpikeMessage: string := "Sudden spike in miss rate detected!"

  /** What `check` is given: a JavaScript number, which may be NaN. */
  datatype Sample = NaN | Rate(value: real)

  function Abs(x: real): (r: real)
    ensures 0.0 <= r && (r == x || r == -x)
  {
    if x < 0.0 then -x else x
  }

  /** The last `min(|s|, n)` elements of `s`, in order. */
  function LastN(s: seq<real>, n: nat): (w: seq<real>)
    ensures |w| == if |s| <= n then |s| else n
    ensures w == s[|s| - |w|..]
  {
    if |s| <= n then s else s[|s| - n..]
  }

  /** `push`, then one `shift` once the window is longer than `n`. */
  function Slide(window: seq<real>, x: real, n: nat): (w: seq<real>)
    requires 0 < n
    ensures |w| == if |window| < n then |window| + 1 else |window|
    ensures w[|w| - 1] == x
  {
    var pushed := window + [x];
    if |pushed| > n then pushed[1..] else pushed
  }

  /** Sliding keeps the window equal to the last `n` admitted samples. */
  lemma SlideKeepsLastN(admitted: seq<real>, x: real, n: nat)
    requires 0 < n
    ensures Slide(LastN(admitted, n), x, n) == LastN(admitted + [x], n)
  {
    var s := admitted + [x];
    if |admitted| >= n {
      assert (admitted[|admitted| - n..] + [x])[1..] == s[|s| - n..];
    }
  }

  /** The detector's test without a square root: the variance is positive
      and the squared deviation of `x` from the mean exceeds
      `threshold^2` times the variance. */
  predicate Outlier(window: seq<real>, x: real, threshold: real): (flagged: bool)
    requires 0 < |window|
    ensures flagged ==> 0.0 < Variance(window) && x != Mean(window)
  {
    var v := Variance(window);
    MulNonNegative(Square(threshold), v);
    0.0 < v && Square(x - Mean(window)) > threshold * threshold * v
  }

  /** `a > b` iff `a^2 > b^2` for non-negative `a` and `b`. */
  lemma SquareMonotone(a: real, b: real)
    requires 0.0 <= a && 0.0 <= b
    ensures a > b <==> a * a > b * b
  {
    if a > b {
      MulPositive(a - b, a + b);
    } else {
      MulNonNegative(b - a, a + b);
    }
  }

  /** The squared test agrees with the test in `AnomalyDetector.check` (index.tsx),
      `stdDev > 0 && |x - mean| > THRESHOLD * stdDev` for the standard
      deviation `sd`, the non-negative root of the variance. */
  lemma OutlierIsStdDevTest(window: seq<real>, x: real, threshold: real, sd: real)
    requires 0 < |window| && 0.0 <= threshold
    requires 0.0 <= sd && sd * sd == Variance(window)
    ensures Outlier(window, x, threshold) <==> 0.0 < sd && Abs(x - Mean(window)) > threshold * sd
  {
    var v := Variance(window);
    var d := Abs(x - Mean(window));
    var bound := threshold * sd;
    if 0.0 < sd {
      MulPositive(sd, sd);
      calc {
        v;
        == sd * sd;
        > 0.0;
      }
      assert d * d == Square(x - Mean(window));
      MulNonNegative(threshold, sd);
      assert bound * bound == threshold * threshold * v;
      SquareMonotone(d, bound);
    } else {
      assert v == 0.0;
    }
  }

  /** The comparison is strict: a sample exactly `threshold` standard
      deviations from the mean is not flagged. */
  lemma AtThresholdIsNotOutlier(window: seq<real>, x: real, threshold: real, sd: real)
    requires 0 < |window| && 0.0 <= threshold
    requires 0.0 <= sd && sd * sd == Variance(window)
    requires Abs(x - Mean(window)) == threshold * sd
    ensures !Outlier(window, x, threshold)
  {
    OutlierIsStdDevTest(window, x, threshold, sd);
  }

  /** A window of equal samples is never judged to hold an outlier. */
  lemma ConstantWindowHasNoOutlier(window: seq<real>, x: real, threshold: real)
    requires 0 < |window| && forall i | 0 <= i < |window| :: window[i] == window[0]
    ensures !Outlier(window, x, threshold)
  {
    ConstantStatistics(window);
  }

  /** The mean of `k` samples `c` and one `y` is `(k * c + y) / (k + 1)`,
      so `c` and `y` lie `(y - c) / (k + 1)` and `k * (y - c) / (k + 1)`
      away from it. */
  lemma PlateauMean(c: real, y: real, k: nat)
    ensures var n := (k + 1) as real;
            var m := Mean(Repeat(c, k) + [y]);
            m * n == k as real * c + y &&
            (c - m) * n == c - y && (y - m) * n == k as real * (y - c)
  {
    var w := Repeat(c, k) + [y];
    assert w[..k] == Repeat(c, k);
    RepeatSums(c, k, 0.0);
  }

  /** The outcome of the squared test on such a window, in terms of
      `u = ((y - c) / (k + 1))^2`: variance `k * u`, squared deviation of
      `y` equal to `k^2 * u`. */
  lemma PlateauVariance(c: real, y: real, k: nat)
    requires 0 < k
    ensures var n := (k + 1) as real;
            var w := Repeat(c, k) + [y];
            var u := Square((y - c) / n);
            Variance(w) == k as real * u && Square(y - Mean(w)) == k as real * k as real * u
  {
    var w := Repeat(c, k) + [y];
    var n := (k + 1) as real;
    var kr := k as real;
    var m := Mean(w);
    var e := (y - c) / n;
    var u := Square(e);
    PlateauMean(c, y, k);
    assert c - m == -e;
    assert y - m == kr * e;
    assert Square(c - m) == u;
    assert Square(y - m) == kr * kr * u by {
      assert (kr * e) * (kr * e) == kr * kr * (e * e);
    }
    assert w[..k] == Repeat(c, k);
    RepeatSums(c, k, m);
    var total := SquaredDeviations(w, m);
    assert total == kr * u + kr * kr * u;
    assert total == n * (kr * u);
    assert Variance(w) == total / n;
  }

  /** A window of `k` equal samples `c` followed by one sample `y`: `y` is
      flagged exactly when it differs from `c` and `threshold^2 < k`. */
  lemma SpikeAfterPlateau(c: real, y: real, k: nat, threshold: real)
    requires 0 < k
    ensures Outlier(Repeat(c, k) + [y], y, threshold) <==> y != c && threshold * threshold < k as real
  {
    var w := Repeat(c, k) + [y];
    var n := (k + 1) as real;
    var kr := k as real;
    var u := Square((y - c) / n);
    PlateauVariance(c, y, k);
    if y == c {
      assert u == 0.0;
    } else {
      assert (y - c) / n != 0.0;
      assert 0.0 < u;
      MulPositive(kr, u);
      var t2 := threshold * threshold;
      assert kr * kr * u - t2 * (kr * u) == (kr - t2) * (kr * u);
      if t2 < kr {
        MulPositive(kr - t2, kr * u);
      } else {
        MulNonNegative(t2 - kr, kr * u);
      }
    }
  }

  class AnomalyDetector {
    /** `ANOMALY_WINDOW_SIZE` and `ANOMALY_STD_DEV_THRESHOLD`. */
    const windowSize: nat
    const threshold: real
    /** `missRateHistory`: the samples the statistics are computed over. */
    var window: seq<real>
    /** Every sample admitted since construction or the last reset. */
    ghost var admitted: seq<real>

    ghost predicate Valid()
      reads this
    {
      0 < windowSize && 0.0 <= threshold && window == LastN(admitted, windowSize)
    }

    constructor (windowSize: nat, threshold: real)
      requires 0 < windowSize && 0.0 <= threshold
      ensures Valid()
      ensures this.windowSize == windowSize && this.threshold == threshold
      ensures window == [] && admitted == []
    {
      this.windowSize := windowSize;
      this.threshold := threshold;
      window := [];
      admitted := [];
    }

    /** `check`: NaN is ignored; any other sample slides into the window and,
        once the window is full, is flagged when it is an outlier of the
        window that includes it. */
    method Check(sample: Sample) returns (alert: Option<string>)
      requires Valid()
      modifies this
      ensures Valid()
      ensures sample.NaN? ==> alert == None && window == old(window) && admitted == old(admitted)
      ensures sample.Rate? ==> admitted == old(admitted) + [sample.value]
      ensures sample.Rate? ==> window == Slide(old(window), sample.value, windowSize)
      ensures |window| <= windowSize
      ensures alert.Some? <==> sample.Rate? && |window| == windowSize && Outlier(window, sample.value, threshold)
      ensures alert.Some? ==> alert.value == SpikeMessage
      ensures |admitted| < windowSize ==> alert == None
    {
      if sample.NaN? {
        return None;
      }
      var x := sample.value;
      SlideKeepsLastN(admitted, x, windowSize);
      window := window + [x];
      if |window| > windowSize {
        window := window[1..];
      }
      admitted := admitted + [x];
      assert |window| <= windowSize;
      if |window| < windowSize {
        return None;
      }
      var mean := Mean(window);
      var variance := Variance(window);
      assert Outlier(window, x, threshold) == (0.0 < variance && Square(x - mean) > threshold * threshold * variance);
      if 0.0 < variance && Square(x - mean) > threshold * threshold * variance {
        alert := Some(SpikeMessage);
      } else {
        alert := None;
      }
    }

    /** `reset`: the window is emptied and the warm-up starts over. */
    method Reset()
      modifies this
      requires Valid()
      ensures Valid() && window == [] && admitted == []
    {
      window := [];
      admitted := [];
    }
  }

  /** Twenty samples of 0.1 are not flagged; a 21st of 0.9 is, against the
      window of nineteen 0.1s and itself (mean 0.14, variance 0.0304). */
  lemma DetectorScenario()
    ensures var w20 := LastN(Repeat(0.1, 20), 20);
            |w20| == 20 && !Outlier(w20, 0.1, 2.5)
    ensures var w21 := LastN(Repeat(0.1, 20) + [0.9], 20);
            w21 == Repeat(0.1, 19) + [0.9] && Outlier(w21, 0.9, 2.5) &&
            Mean(w21) == 0.14 && Variance(w21) == 0.0304
  {
    ConstantWindowHasNoOutlier(Repeat(0.1, 20), 0.1, 2.5);
    var s := Repeat(0.1, 20) + [0.9];
    assert s[1..] == Repeat(0.1, 19) + [0.9];
    SpikeAfterPlateau(0.1, 0.9, 19, 2.5);
    PlateauMean(0.1, 0.9, 19);
    PlateauVariance(0.1, 0.9, 19);
  }
}
