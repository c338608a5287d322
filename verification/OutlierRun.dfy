/** There is no maximum to the measurements that the outlier filter ignores in a row: offsets that keep
    growing tenfold, however small the first, are ignored one and all. */
module OutlierRun {
  import opened PtpClock
  import opened Statistics
  import opened ClockServo

  // ----- a dominant last sample is an outlier -----

  predicate AllPositive(s: seq<real>) {
    forall i :: 0 <= i < |s| ==> s[i] >= 0.0
  }

  lemma {:induction false} DropSum(s: seq<real>, k: nat)
    requires AllPositive(s) && k <= |s|
    ensures 0.0 <= Sum(s[k..]) <= Sum(s)
    decreases |s|
  {
    if s != [] {
      DropSum(s[1..], if k == 0 then 0 else k - 1);
      if k > 0 {
        assert s[1..][k - 1..] == s[k..];
      } else {
        assert s[0..] == s && s[1..][0..] == s[1..];
      }
    }
  }

  /** The sum of the squares of non-negative numbers is at most the square of their sum. */
  lemma {:induction false} SquaresBelowSquare(s: seq<real>)
    requires AllPositive(s)
    ensures SumSquares(s, 0.0) <= Square(Sum(s))
  {
    if s != [] {
      SquaresBelowSquare(s[1..]);
      DropSum(s[1..], 0);
      assert s[1..][0..] == s[1..];
      SquareOfTwo(s[0], Sum(s[1..]));
    }
  }

  lemma SquareOfTwo(x: real, y: real)
    requires x >= 0.0 && y >= 0.0
    ensures Square(x - 0.0) + Square(y) <= Square(x + y)
  {
    assert (x + y) * (x + y) == x * x + y * y + 2.0 * (x * y);
    assert x * y >= 0.0;
  }

  /** Squared deviations from `c` in terms of those from 0. */
  lemma {:induction false} ShiftToZero(s: seq<real>, c: real)
    ensures SumSquares(s, c) == SumSquares(s, 0.0) - 2.0 * Product(c, Sum(s)) + Times(|s|, Square(c))
  {
    hide Product, Times, Square;
    TimesZero(Square(c));
    if s == [] {
      ProductZero(c);
    } else {
      ShiftToZero(s[1..], c);
      TimesNext(|s[1..]|, Square(c));
      ShiftOneToZero(s[0], c, Sum(s[1..]));
    }
  }

  lemma ProductZero(c: real)
    ensures Product(c, 0.0) == 0.0
  {
  }

  lemma ShiftOneToZero(x: real, c: real, rest: real)
    ensures Square(x - c) == Square(x - 0.0) - 2.0 * Product(c, x + rest) + 2.0 * Product(c, rest) + Square(c)
  {
    assert (x - c) * (x - c) == x * x - 2.0 * (c * x) + c * c;
    assert c * (x + rest) == c * x + c * rest;
  }

  /** The mean of the squares bounds the variance. */
  lemma VarianceBelowSquares(s: seq<real>)
    requires s != []
    ensures Times(|s|, Variance(s)) <= SumSquares(s, 0.0)
  {
    hide Product, Times, Square, Mean, Variance, SumSquares;
    VarianceTimes(s);
    ShiftToZero(s, Mean(s));
    MeanTimes(s);
    MeanSquared(|s|, Mean(s));
  }

  lemma MeanSquared(n: nat, m: real)
    ensures Product(m, Times(n, m)) == Times(n, Square(m)) >= 0.0
  {
    assert m * (n as real * m) == n as real * (m * m);
  }

  /** At least ten samples of which the last is nine times the sum of the others: it is flagged. */
  lemma DominantIsFar(ys: seq<real>, v: real)
    requires AllPositive(ys) && |ys| >= 9 && v > 0.0 && 9.0 * Sum(ys) <= v
    ensures IsFar(ys + [v], v, OUTLIER_THRESHOLD)
  {
    hide Mean, Variance, SumSquares, Sum, Square, Times, Product;
    var w := ys + [v];
    SumSnoc(ys, v);
    SumSquaresSnoc(ys, v, 0.0);
    SquaresBelowSquare(ys);
    DropSum(ys, 0);
    assert ys[0..] == ys;
    MeanTimes(w);
    VarianceBelowSquares(w);
    OwnDeviationCounts(ys, v, Mean(w));
    VarianceTimes(w);
    Dominates(|w|, v, Sum(ys), Mean(w), Variance(w), SumSquares(ys, 0.0));
  }

  lemma OwnDeviationCounts(ys: seq<real>, v: real, c: real)
    ensures SumSquares(ys + [v], c) >= Square(v - c)
  {
    SumSquaresSnoc(ys, v, c);
  }

  lemma Dominates(n: nat, v: real, s: real, m: real, variance: real, q: real)
    requires n >= 10 && v > 0.0 && s >= 0.0 && 9.0 * s <= v
    requires Times(n, m) == s + v && q <= Square(s)
    requires Times(n, variance) <= q + Square(v - 0.0) && Square(v - m) <= Times(n, variance)
    ensures variance > 0.0 && Square(v - m) > Product(Square(OUTLIER_THRESHOLD), variance)
  {
    hide Square, Product, Times;
    var vv := Square(v);
    MeanIsSmall(n, v, s, m);
    PartSquared(v, 8.0 / 9.0);
    SquareMonotone(8.0 / 9.0 * v, v - m);
    PartSquared(v, 1.0 / 9.0);
    SquareMonotone(s, 1.0 / 9.0 * v);
    PositiveSquare(v);
    VarianceIsSmall(n, variance, vv);
    ThresholdSquared(variance);
  }

  lemma PartSquared(v: real, c: real)
    ensures Square(c * v) == (c * c) * Square(v) && Square(v - 0.0) == Square(v)
  {
    assert (c * v) * (c * v) == (c * c) * (v * v);
  }

  lemma ThresholdSquared(variance: real)
    ensures Product(Square(OUTLIER_THRESHOLD), variance) == 3.0625 * variance
  {
  }

  lemma MeanIsSmall(n: nat, v: real, s: real, m: real)
    requires n >= 10 && v > 0.0 && s >= 0.0 && 9.0 * s <= v && Times(n, m) == s + v
    ensures 0.0 <= m <= v / 9.0
  {
    var (r, t) := (n as real, v / 9.0);
    assert r * m == s + v <= 10.0 * t;
    CancelFactor(r, 0.0, m);
    ScaleUp(t, 10.0, r);
    assert r * t == t * r;
    CancelFactor(r, m, t);
  }

  lemma VarianceIsSmall(n: nat, variance: real, vv: real)
    requires n >= 10 && vv > 0.0 && 0.0 < Times(n, variance) <= 82.0 / 81.0 * vv
    ensures 0.0 < variance && 10.0 * variance <= 82.0 / 81.0 * vv
  {
    if variance <= 0.0 {
      ScaleUp(n as real, variance, 0.0);
    }
    ScaleUp(variance, 10.0, n as real);
  }

  // ----- the run -----

  function Measured(offset: real): Measurement {
    Measurement(offset, Timestamp(0, 0), false)
  }

  /** `k` measurements without any offset. */
  function Quiet(k: nat): seq<Measurement> {
    if k == 0 then [] else Quiet(k - 1) + [Measured(0.0)]
  }

  /** A tenth of a second, divided by ten `k` times. */
  function Tiny(k: nat): (e: real)
    ensures 0.0 < e <= 0.1
  {
    if k == 0 then 0.1 else Tiny(k - 1) / 10.0
  }

  /** Ten quiet measurements, then `i` of `n` growing ones. */
  function Growing(n: nat, i: nat): seq<Measurement>
    requires i <= n
  {
    if i == 0 then Quiet(LOCK_THRESHOLD) else Growing(n, i - 1) + [Measured(Tiny(n - i + 1))]
  }

  predicate AllZero(s: seq<real>) {
    forall i :: 0 <= i < |s| ==> s[i] == 0.0
  }

  lemma ZeroMedian(s: seq<real>)
    requires s != [] && AllZero(s)
    ensures Median(s) == 0.0
  {
    ExtremesBound(s);
    MedianBetweenExtremes(s);
  }

  lemma {:induction false} ZeroSum(s: seq<real>)
    requires AllZero(s)
    ensures Sum(s) == 0.0
  {
    if s != [] {
      ZeroSum(s[1..]);
    }
  }

  /** One more measurement below the step threshold that is not ignored. */
  lemma AdjustStep(before: seq<Measurement>, v: real)
    requires !IsStep(v) && Judge(Run(before), v) == Adjust
    ensures var ms := before + [Measured(v)];
      && SinceStep(ms) == SinceStep(before) + [v]
      && Run(ms).clock.adjustments == Run(before).clock.adjustments + 1
      && Run(ms).clock.calibrated == WithinThreshold(Median(Last(SinceStep(ms), WINDOW)))
  {
    hide IsFar, Median, Push, Last;
    var ms := before + [Measured(v)];
    assert ms[..|ms| - 1] == before;
    WindowIsRecent(before);
    PushLast(SinceStep(before), v, WINDOW);
  }

  /** One more that is ignored. */
  lemma IgnoreStep(before: seq<Measurement>, v: real)
    requires !IsStep(v) && Run(before).clock.IsCalibrated()
    requires IsFar(Push(Last(SinceStep(before), WINDOW), v, WINDOW), v, OUTLIER_THRESHOLD)
    ensures var ms := before + [Measured(v)];
      && SinceStep(ms) == SinceStep(before) + [v] && Run(ms).clock == Run(before).clock
      && VerdictAt(ms, |before|) == Ignore
  {
    hide IsFar, Median, Push, Last;
    var ms := before + [Measured(v)];
    assert ms[..|before|] == before;
    WindowIsRecent(before);
  }

  /** The quiet measurements lock and calibrate the clock. */
  lemma {:induction false} QuietCalibrates(k: nat)
    requires k <= LOCK_THRESHOLD
    ensures |Quiet(k)| == k && |SinceStep(Quiet(k))| == k && AllZero(SinceStep(Quiet(k)))
    ensures Run(Quiet(k)).clock.adjustments == k && (k > 0 ==> Run(Quiet(k)).clock.calibrated)
  {
    hide IsFar, Median, SinceStep, Run;
    if k == 0 {
      NothingMeasured();
    } else {
      var before := Quiet(k - 1);
      QuietCalibrates(k - 1);
      AdjustStep(before, 0.0);
      ZeroMedian(Last(SinceStep(before) + [0.0], WINDOW));
    }
  }

  lemma NothingMeasured()
    ensures SinceStep([]) == [] && Run([]) == START
  {
  }

  /** While the offsets grow, each is ignored, so the clock stays as it was. */
  lemma {:induction false} GrowingIgnored(n: nat, i: nat)
    requires i <= n
    ensures var ms := Growing(n, i);
      && |ms| == LOCK_THRESHOLD + i && Run(ms).clock.IsCalibrated()
      && |SinceStep(ms)| == |ms| && AllPositive(SinceStep(ms)) && 9.0 * Sum(SinceStep(ms)) <= Tiny(n - i)
    ensures i > 0 ==> VerdictAt(Growing(n, i), LOCK_THRESHOLD + i - 1) == Ignore
  {
    hide IsFar, Push, Last, SinceStep, Run, VerdictAt, Sum;
    if i == 0 {
      QuietCalibrates(LOCK_THRESHOLD);
      ZeroSum(SinceStep(Quiet(LOCK_THRESHOLD)));
    } else {
      var (before, v) := (Growing(n, i - 1), Tiny(n - i + 1));
      GrowingIgnored(n, i - 1);
      NextIsFar(SinceStep(before), v);
      IgnoreStep(before, v);
      SumSnoc(SinceStep(before), v);
    }
  }

  lemma NextIsFar(s: seq<real>, v: real)
    requires AllPositive(s) && |s| >= LOCK_THRESHOLD && v > 0.0 && 9.0 * Sum(s) <= v
    ensures IsFar(Push(Last(s, WINDOW), v, WINDOW), v, OUTLIER_THRESHOLD)
  {
    hide IsFar, Sum;
    PushLast(s, v, WINDOW);
    var from := if |s| + 1 <= WINDOW then 0 else |s| + 1 - WINDOW;
    assert Last(s + [v], WINDOW) == s[from..] + [v];
    DropSum(s, from);
    DominantIsFar(s[from..], v);
  }

  lemma GrowingPrefix(n: nat, i: nat, k: nat)
    requires i <= k <= n
    ensures |Growing(n, k)| == LOCK_THRESHOLD + k && Growing(n, k)[..LOCK_THRESHOLD + i] == Growing(n, i)
    decreases k
  {
    if k == 0 {
      QuietCalibrates(LOCK_THRESHOLD);
    } else if i < k {
      GrowingPrefix(n, i, k - 1);
    } else {
      GrowingPrefix(n, i - 1, k - 1);
    }
  }

  lemma {:induction false} GrowingSmall(n: nat, i: nat)
    requires i <= n
    ensures forall k :: 0 <= k < |Growing(n, i)| ==> 0.0 <= Growing(n, i)[k].offset <= 0.1
  {
    if i > 0 {
      GrowingSmall(n, i - 1);
    } else {
      QuietIsQuiet(LOCK_THRESHOLD);
    }
  }

  lemma {:induction false} QuietIsQuiet(k: nat)
    ensures forall j :: 0 <= j < |Quiet(k)| ==> Quiet(k)[j].offset == 0.0
  {
    if k > 0 {
      QuietIsQuiet(k - 1);
    }
  }

  /** For every n there is a run, of offsets up to a tenth of a second, that ends in n measurements
      ignored in a row. */
  lemma NoMaximumIgnored(n: nat) returns (ms: seq<Measurement>)
    ensures |ms| == LOCK_THRESHOLD + n && forall k :: 0 <= k < |ms| ==> 0.0 <= ms[k].offset <= 0.1
    ensures forall k :: LOCK_THRESHOLD <= k < |ms| ==> VerdictAt(ms, k) == Ignore
  {
    hide VerdictAt;
    ms := Growing(n, n);
    GrowingPrefix(n, n, n);
    GrowingSmall(n, n);
    forall k | LOCK_THRESHOLD <= k < |ms|
      ensures VerdictAt(ms, k) == Ignore
    {
      var i := k - LOCK_THRESHOLD + 1;
      GrowingPrefix(n, i, n);
      GrowingIgnored(n, i);
      VerdictOfPrefix(ms, k + 1, k);
    }
  }
}
