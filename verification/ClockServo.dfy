/** How offset measurements steer the clock: a run of measurements as the state machine of the
    instance that follows a grandmaster. */
module ClockServo {
  import opened PtpClock
  import opened Statistics

  const WINDOW := 51
  const STEP_THRESHOLD_SECONDS := 1
  const CALIBRATED_THRESHOLD := 0.0018
  const OUTLIER_THRESHOLD := 1.75
  const UINT32 := 0x1_0000_0000

  /** An offset from the master, the system time at which it is handled, and whether the throttle of
      the statistics callback lets a report pass. */
  datatype Measurement = Measurement(offset: real, now: Timestamp, report: bool)

  datatype Servo = Servo(clock: Clock, offsets: seq<real>, filtered: seq<real>, ignored: nat)

  datatype Verdict = Step | Adjust | Ignore

  predicate IsStep(offset: real) {
    Abs(offset) >= STEP_THRESHOLD_SECONDS as real
  }

  predicate WithinThreshold(median: real) {
    -CALIBRATED_THRESHOLD <= median <= CALIBRATED_THRESHOLD
  }

  function Judge(s: Servo, offset: real): Verdict {
    if IsStep(offset) then Step
    else if s.clock.IsCalibrated() && IsFar(Push(s.offsets, offset, WINDOW), offset, OUTLIER_THRESHOLD) then Ignore
    else Adjust
  }

  function Measure(s: Servo, m: Measurement): Servo {
    var offsets := Push(s.offsets, m.offset, WINDOW);
    match Judge(s, m.offset)
    case Step => s.(clock := Stepped(s.clock, m.now, m.offset), offsets := [])
    case Ignore => s.(offsets := offsets, ignored := (s.ignored + 1) % UINT32)
    case Adjust =>
      Servo(Adjusted(s.clock, m.now, m.offset).(calibrated := WithinThreshold(Median(offsets))),
            offsets,
            Push(s.filtered, m.offset, WINDOW),
            if m.report then 0 else s.ignored)
  }

  const START := Servo(INITIAL, [], [], 0)

  function Run(ms: seq<Measurement>): Servo {
    if ms == [] then START else Measure(Run(ms[..|ms| - 1]), ms[|ms| - 1])
  }

  function VerdictAt(ms: seq<Measurement>, k: nat): Verdict
    requires k < |ms|
  {
    Judge(Run(ms[..k]), ms[k].offset)
  }

  lemma VerdictOfPrefix(ms: seq<Measurement>, n: nat, k: nat)
    requires k < n <= |ms|
    ensures VerdictAt(ms[..n], k) == VerdictAt(ms, k)
  {
    assert ms[..n][..k] == ms[..k];
  }

  // ----- what a run has applied -----

  /** The sum of the offsets that were not ignored. */
  function Applied(ms: seq<Measurement>): real {
    if ms == [] then 0.0
    else
      var n := |ms| - 1;
      Applied(ms[..n]) + if VerdictAt(ms, n) == Ignore then 0.0 else ms[n].offset
  }

  /** The shift undoes exactly the offsets that were applied. */
  lemma {:induction false} ShiftIsMinusApplied(ms: seq<Measurement>)
    ensures Run(ms).clock.shift == -Applied(ms)
  {
    if ms != [] {
      ShiftIsMinusApplied(ms[..|ms| - 1]);
    }
  }

  /** In no run does the clock's ratio leave a thousandth around 1. */
  lemma {:induction false} RatioNearOne(ms: seq<Measurement>)
    ensures 0.999 < Run(ms).clock.ratio < 1.001
  {
    hide Cube, IsFar, Median;
    if ms != [] {
      var n := |ms| - 1;
      RatioNearOne(ms[..n]);
      if VerdictAt(ms, n) == Adjust {
        SmallOffsetRatio(Run(ms[..n]).clock, ms[n].now, ms[n].offset);
      }
    }
  }

  lemma AppliedSynchronises(ms: seq<Measurement>)
    requires ms != [] && VerdictAt(ms, |ms| - 1) != Ignore
    ensures Run(ms).clock.lastSync == ms[|ms| - 1].now
  {
    hide Median, IsFar, Push;
  }

  /** At the instant of an applied measurement the clock reads the system time less everything
      applied so far, whatever the ratios were. */
  lemma ReadingAtMeasurement(ms: seq<Measurement>)
    requires ms != [] && VerdictAt(ms, |ms| - 1) != Ignore
    ensures var t := ms[|ms| - 1].now;
      Reading(Run(ms).clock, t) == AtLeastZero(t.Nanos() + ToNanos(-Applied(ms)))
  {
    hide Reading, ToNanos, AtLeastZero, Run, VerdictAt, Applied, Timestamp.Nanos;
    ShiftIsMinusApplied(ms);
    AppliedSynchronises(ms);
    ReadingAtSync(Run(ms).clock);
  }

  /** Between measurements the clock advances strictly over any two nanoseconds, once it is past
      zero. */
  lemma ClockAdvances(ms: seq<Measurement>, t: Timestamp, u: Timestamp)
    requires Run(ms).clock.lastSync.Nanos() <= t.Nanos() && t.Nanos() + 2 <= u.Nanos()
    requires Reading(Run(ms).clock, t) > 0
    ensures Reading(Run(ms).clock, t) < Reading(Run(ms).clock, u)
  {
    hide Reading, Run, Timestamp.Nanos;
    RatioNearOne(ms);
    AdvancesByRatio(Run(ms).clock, t, u);
    TwoNanos((u.Nanos() - t.Nanos()) as real, Run(ms).clock.ratio);
  }

  lemma TwoNanos(n: real, r: real)
    requires n >= 2.0 && r >= 0.999
    ensures n * r >= 1.0
  {
    ScaleUp(n, 0.5, r);
  }

  // ----- the window and the calibration -----

  /** The offsets since the last step, in order. */
  function SinceStep(ms: seq<Measurement>): seq<real> {
    if ms == [] || IsStep(ms[|ms| - 1].offset) then []
    else SinceStep(ms[..|ms| - 1]) + [ms[|ms| - 1].offset]
  }

  /** The window holds the last offsets since the last step, ignored or not. */
  lemma {:induction false} WindowIsRecent(ms: seq<Measurement>)
    ensures Run(ms).offsets == Last(SinceStep(ms), 51)
  {
    if ms != [] {
      var n := |ms| - 1;
      WindowIsRecent(ms[..n]);
      PushLast(SinceStep(ms[..n]), ms[n].offset, WINDOW);
    }
  }

  function AdjustmentsSinceStep(ms: seq<Measurement>): nat {
    if ms == [] then 0
    else
      var n := |ms| - 1;
      match VerdictAt(ms, n)
      case Step => 0
      case Ignore => AdjustmentsSinceStep(ms[..n])
      case Adjust => AdjustmentsSinceStep(ms[..n]) + 1
  }

  /** `j` is the last measurement that was not ignored. */
  ghost predicate LastApplied(ms: seq<Measurement>, j: nat) {
    j < |ms| && VerdictAt(ms, j) != Ignore && forall k :: j < k < |ms| ==> VerdictAt(ms, k) == Ignore
  }

  /** The window that measurement `k` is tested against; it includes the measurement. */
  function WindowAt(ms: seq<Measurement>, k: nat): seq<real>
    requires k < |ms|
  {
    Last(SinceStep(ms[..k + 1]), WINDOW)
  }

  /** Within 1.8 ms of zero, either way. */
  predicate IsSmall(median: real) {
    -0.0018 <= median <= 0.0018
  }

  /** The last applied measurement is an adjustment, and the median was within the threshold then. */
  ghost predicate GoodAt(ms: seq<Measurement>, j: nat) {
    LastApplied(ms, j) && VerdictAt(ms, j) == Adjust && IsSmall(Median(WindowAt(ms, j)))
  }

  lemma GoodAtStays(ms: seq<Measurement>, j: nat)
    requires ms != [] && VerdictAt(ms, |ms| - 1) == Ignore
    ensures GoodAt(ms, j) <==> GoodAt(ms[..|ms| - 1], j)
  {
    hide Median, SinceStep, IsSmall, Last, VerdictAt;
    var n := |ms| - 1;
    forall k | 0 <= k < n
      ensures VerdictAt(ms[..n], k) == VerdictAt(ms, k)
    {
      VerdictOfPrefix(ms, n, k);
    }
    if j < n {
      assert ms[..n][..j + 1] == ms[..j + 1];
    }
  }

  lemma {:induction false} CalibrationFlag(ms: seq<Measurement>)
    ensures Run(ms).clock.adjustments == AdjustmentsSinceStep(ms)
    ensures Run(ms).clock.calibrated <==> exists j :: GoodAt(ms, j)
  {
    hide Median, IsFar, GoodAt;
    if ms == [] {
      NothingGood();
    } else {
      var n := |ms| - 1;
      CalibrationFlag(ms[..n]);
      assert ms[..n + 1] == ms;
      match VerdictAt(ms, n)
      case Ignore =>
        forall j: nat
          ensures GoodAt(ms, j) <==> GoodAt(ms[..n], j)
        {
          GoodAtStays(ms, j);
        }
      case Step =>
        OnlyLastGood(ms);
      case Adjust =>
        OnlyLastGood(ms);
        WindowIsRecent(ms);
    }
  }

  lemma NothingGood()
    ensures !exists j :: GoodAt([], j)
  {
  }

  lemma OnlyLastGood(ms: seq<Measurement>)
    requires ms != [] && VerdictAt(ms, |ms| - 1) != Ignore
    ensures (exists j :: GoodAt(ms, j)) <==>
      VerdictAt(ms, |ms| - 1) == Adjust && IsSmall(Median(Last(SinceStep(ms), WINDOW)))
  {
    hide Median, SinceStep, IsSmall, VerdictAt, Last;
    var n := |ms| - 1;
    assert ms[..n + 1] == ms;
    forall j: nat
      ensures GoodAt(ms, j) ==> j == n
    {
    }
    assert GoodAt(ms, n) <==> VerdictAt(ms, n) == Adjust && IsSmall(Median(Last(SinceStep(ms), WINDOW)));
  }

  /** A clock is calibrated exactly when it has had ten adjustments since its last step and the
      median was within the threshold at the last measurement that was applied. */
  lemma CalibratedIff(ms: seq<Measurement>)
    ensures Run(ms).clock.IsCalibrated() <==>
      AdjustmentsSinceStep(ms) >= 10 &&
      exists j :: LastApplied(ms, j) && VerdictAt(ms, j) == Adjust && -0.0018 <= Median(WindowAt(ms, j)) <= 0.0018
  {
    CalibrationFlag(ms);
    assert forall j: nat :: GoodAt(ms, j) <==>
      LastApplied(ms, j) && VerdictAt(ms, j) == Adjust && -0.0018 <= Median(WindowAt(ms, j)) <= 0.0018;
  }

  lemma {:induction false} AdjustmentsAreMeasured(ms: seq<Measurement>)
    ensures AdjustmentsSinceStep(ms) <= |SinceStep(ms)|
  {
    if ms != [] {
      AdjustmentsAreMeasured(ms[..|ms| - 1]);
    }
  }

  /** A measurement makes the clock step exactly when it is a second or more, either way; it is ignored
      exactly when it lies below the step threshold, ten adjustments have been
      made since the last step, the median was within the threshold at the last measurement that was
      applied, and it is an outlier of the window that includes it. */
  lemma IgnoredIff(ms: seq<Measurement>, k: nat)
    requires k < |ms|
    ensures VerdictAt(ms, k) == Ignore <==>
      (&& -1.0 < ms[k].offset < 1.0
       && AdjustmentsSinceStep(ms[..k]) >= 10
       && (exists j :: GoodAt(ms[..k], j))
       && IsFar(WindowAt(ms, k), ms[k].offset, 1.75))
    ensures VerdictAt(ms, k) == Ignore ==> |WindowAt(ms, k)| > 10
    ensures VerdictAt(ms, k) == Step <==> ms[k].offset <= -1.0 || ms[k].offset >= 1.0
  {
    hide IsFar, GoodAt;
    CalibrationFlag(ms[..k]);
    AdjustmentsAreMeasured(ms[..k]);
    WindowIsRecent(ms[..k]);
    PushLast(SinceStep(ms[..k]), ms[k].offset, WINDOW);
    assert ms[..k + 1][..k] == ms[..k];
  }

  /** `j` was applied last: the clock was synchronised then, with the ratio that its offset asks for, or
      1 after a step. */
  lemma {:induction false} ClockFollowsLastApplied(ms: seq<Measurement>, j: nat)
    requires LastApplied(ms, j)
    ensures var c := Run(ms).clock;
      c.lastSync == ms[j].now &&
      c.ratio == if VerdictAt(ms, j) == Step then 1.0 else NominalRatio(ms[j].offset)
  {
    hide Median, IsFar, Push, NominalRatio;
    var n := |ms| - 1;
    if j == n {
      if VerdictAt(ms, n) == Adjust {
        SmallOffsetRatio(Run(ms[..n]).clock, ms[n].now, ms[n].offset);
      }
    } else {
      forall k | 0 <= k < n
        ensures VerdictAt(ms[..n], k) == VerdictAt(ms, k)
      {
        VerdictOfPrefix(ms, n, k);
      }
      ClockFollowsLastApplied(ms[..n], j);
      assert VerdictAt(ms, n) == Ignore;
    }
  }

  /** The offsets that were adjusted, in order. */
  function AdjustedOffsets(ms: seq<Measurement>): seq<real> {
    if ms == [] then []
    else
      var n := |ms| - 1;
      AdjustedOffsets(ms[..n]) + if VerdictAt(ms, n) == Adjust then [ms[n].offset] else []
  }

  /** The filtered window holds the last offsets that were adjusted, steps or not in between. */
  lemma {:induction false} FilteredIsAdjusted(ms: seq<Measurement>)
    ensures Run(ms).filtered == Last(AdjustedOffsets(ms), WINDOW)
  {
    hide Median, IsFar, Push, Last;
    if ms == [] {
      LastOfNothing();
    } else {
      var n := |ms| - 1;
      FilteredIsAdjusted(ms[..n]);
      PushLast(AdjustedOffsets(ms[..n]), ms[n].offset, WINDOW);
      assert AdjustedOffsets(ms[..n]) + [] == AdjustedOffsets(ms[..n]);
    }
  }

  lemma LastOfNothing()
    ensures Last([], WINDOW) == []
  {
  }

  /** The measurements ignored since the last report of the statistics. */
  function IgnoredSinceReport(ms: seq<Measurement>): nat {
    if ms == [] then 0
    else
      var n := |ms| - 1;
      match VerdictAt(ms, n)
      case Step => IgnoredSinceReport(ms[..n])
      case Ignore => IgnoredSinceReport(ms[..n]) + 1
      case Adjust => if ms[n].report then 0 else IgnoredSinceReport(ms[..n])
  }

  /** The count of ignored outliers is theirs, in 32 bits. */
  lemma {:induction false} IgnoredIsCounted(ms: seq<Measurement>)
    ensures Run(ms).ignored == IgnoredSinceReport(ms) % UINT32
  {
    hide Measure, Judge;
    if ms != [] {
      var n := |ms| - 1;
      IgnoredIsCounted(ms[..n]);
      MeasureCounts(Run(ms[..n]), ms[n]);
    }
  }

  lemma MeasureCounts(s: Servo, m: Measurement)
    ensures Measure(s, m).ignored ==
      match Judge(s, m.offset)
      case Step => s.ignored
      case Ignore => (s.ignored + 1) % UINT32
      case Adjust => if m.report then 0 else s.ignored
  {
    hide Judge, Push, Median;
  }

  // ----- the filter cannot ignore for ever -----

  lemma {:induction false} CopiesSnoc(s: seq<real>, x: real, v: real)
    ensures Copies(s + [x], v) == Copies(s, v) + if x == v then 1 else 0
  {
    if s == [] {
      assert [] + [x] == [x];
    } else {
      CopiesSnoc(s[1..], x, v);
      assert (s + [x])[1..] == s[1..] + [x];
    }
  }

  /** A sequence that ends in k copies of v. */
  ghost predicate EndsIn(s: seq<real>, v: real, k: nat) {
    k <= |s| && forall i :: |s| - k <= i < |s| ==> s[i] == v
  }

  lemma {:induction false} EndCopies(s: seq<real>, v: real, k: nat)
    requires EndsIn(s, v, k)
    ensures Copies(s, v) >= k
  {
    if k > 0 {
      var n := |s| - 1;
      assert s == s[..n] + [s[n]];
      CopiesSnoc(s[..n], s[n], v);
      EndCopies(s[..n], v, k - 1);
    }
  }

  lemma {:induction false} EqualMeasurementsEnd(ms: seq<Measurement>, v: real, k: nat)
    requires !IsStep(v) && k <= |ms| && forall i :: |ms| - k <= i < |ms| ==> ms[i].offset == v
    ensures EndsIn(SinceStep(ms), v, k)
  {
    if k > 0 {
      EqualMeasurementsEnd(ms[..|ms| - 1], v, k - 1);
    }
  }

  /** A measurement is never ignored when at least 16 / 65 of its window lie at it or beyond it, on its
      side of the mean. */
  lemma EnoughBeyondApplied(ms: seq<Measurement>, k: nat)
    requires k < |ms|
    requires var w := WindowAt(ms, k); 16 * |w| <= 65 * Beyond(w, ms[k].offset, Mean(w))
    ensures VerdictAt(ms, k) != Ignore
  {
    hide IsFar, GoodAt, Beyond, Mean, WindowAt, VerdictAt;
    IgnoredIff(ms, k);
    if VerdictAt(ms, k) == Ignore {
      EnoughBeyondNotFar(WindowAt(ms, k), ms[k].offset);
    }
  }

  /** So a measurement with twelve others of its window at it or beyond it is applied: a lasting change
      of the offset is not filtered out for ever, however much the measurements scatter. */
  lemma ThirteenBeyondApplied(ms: seq<Measurement>, k: nat)
    requires k < |ms| && Beyond(WindowAt(ms, k), ms[k].offset, Mean(WindowAt(ms, k))) >= 13
    ensures VerdictAt(ms, k) != Ignore
  {
    hide Beyond, Mean, VerdictAt;
    EnoughBeyondApplied(ms, k);
  }

  /** In particular the last of thirteen equal measurements in a row. */
  lemma ThirteenEqualApplied(ms: seq<Measurement>, v: real)
    requires |ms| >= 13 && forall i :: |ms| - 13 <= i < |ms| ==> ms[i].offset == v
    ensures VerdictAt(ms, |ms| - 1) != Ignore
  {
    hide Beyond, Copies, Mean, SinceStep, Run;
    var n := |ms| - 1;
    if !IsStep(v) {
      assert ms[..n + 1] == ms;
      EqualMeasurementsEnd(ms, v, 13);
      var w := Last(SinceStep(ms), WINDOW);
      assert EndsIn(w, v, 13);
      EndCopies(w, v, 13);
      CopiesAreBeyond(w, v, Mean(w));
      ThirteenBeyondApplied(ms, n);
    }
  }

  // ----- the object -----

  /** The part of the instance that follows the clock. */
  class Instance {
    const localClock: LocalClock
    const offsetFromMaster: SlidingStats
    const filteredOffset: SlidingStats
    var ignoredOutliers: nat

    ghost predicate Valid()
      reads this, localClock, offsetFromMaster, filteredOffset
    {
      offsetFromMaster != filteredOffset &&
      offsetFromMaster.capacity == WINDOW && filteredOffset.capacity == WINDOW &&
      offsetFromMaster.Valid() && filteredOffset.Valid()
    }

    ghost function View(): Servo
      reads this, localClock, offsetFromMaster, filteredOffset
    {
      Servo(localClock.View(), offsetFromMaster.window, filteredOffset.window, ignoredOutliers)
    }

    constructor ()
      ensures Valid() && View() == START && fresh(localClock) && fresh(offsetFromMaster) && fresh(filteredOffset)
    {
      localClock := new LocalClock();
      offsetFromMaster := new SlidingStats(WINDOW);
      filteredOffset := new SlidingStats(WINDOW);
      ignoredOutliers := 0;
    }

    /** `stddev` is the square root that the outlier test takes. */
    method UpdateLocalPtpClock(m: Measurement, stddev: real)
      requires Valid() && IsStdDev(stddev, Variance(Push(offsetFromMaster.window, m.offset, WINDOW)))
      modifies this, localClock, offsetFromMaster, filteredOffset
      ensures Valid() && View() == Measure(old(View()), m)
    {
      hide IsFar, Mean, Median, Variance, Least, Greatest, Push, IsOutlier, Square;
      if Abs(m.offset) >= STEP_THRESHOLD_SECONDS as real {
        localClock.Step(m.now, m.offset);
        offsetFromMaster.Reset();
      } else {
        offsetFromMaster.Add(m.offset);
        var outlier := false;
        if localClock.View().IsCalibrated() {
          outlier := offsetFromMaster.IsOutlierZscore(m.offset, OUTLIER_THRESHOLD, stddev);
          FlaggedIsFar(offsetFromMaster.window, m.offset, stddev, OUTLIER_THRESHOLD);
        }
        if outlier {
          ignoredOutliers := (ignoredOutliers + 1) % UINT32;
        } else {
          filteredOffset.Add(m.offset);
          localClock.Adjust(m.now, m.offset);
          localClock.SetCalibrated(WithinThreshold(offsetFromMaster.median));
          if m.report {
            ignoredOutliers := 0;
          }
        }
      }
    }
  }
}
