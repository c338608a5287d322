/** The servo treats both signs of an offset alike: runs that mirror each other. */
module ServoMirror {
  import opened Bytes
  import opened Statistics
  import opened PtpClock
  import opened ClockServo

  // ----- samples -----

  function Negated(s: seq<real>): (r: seq<real>)
    ensures |r| == |s| && forall i :: 0 <= i < |s| ==> r[i] == -s[i]
  {
    seq(|s|, i requires 0 <= i < |s| => -s[i])
  }

  lemma NegatedTail(s: seq<real>)
    requires s != []
    ensures Negated(s)[0] == -s[0] && Negated(s)[1..] == Negated(s[1..])
  {
  }

  lemma {:induction false} NegatedSums(s: seq<real>, c: real)
    ensures Sum(Negated(s)) == -Sum(s) && SumSquares(Negated(s), -c) == SumSquares(s, c)
  {
    hide Negated, Square;
    if s == [] {
      NegatedNothing();
    } else {
      NegatedTail(s);
      NegatedSums(s[1..], c);
      SquareOfNegated(s[0] - c);
      assert -s[0] - -c == -(s[0] - c);
    }
  }

  lemma NegatedNothing()
    ensures Negated([]) == []
  {
  }

  lemma SquareOfNegated(x: real)
    ensures Square(-x) == Square(x)
  {
  }

  lemma NegatedMoments(s: seq<real>)
    ensures Mean(Negated(s)) == -Mean(s) && Variance(Negated(s)) == Variance(s)
  {
    hide Negated, Sum, SumSquares;
    NegatedSums(s, Mean(s));
    if s != [] {
      QuotientOfNegated(Sum(s), |s|);
    }
  }

  lemma QuotientOfNegated(x: real, n: nat)
    requires n > 0
    ensures -x / n as real == -(x / n as real)
  {
  }

  lemma NegatedIsFar(s: seq<real>, v: real, t: real)
    ensures IsFar(Negated(s), -v, t) <==> IsFar(s, v, t)
  {
    hide Negated, Mean, Variance, Square;
    NegatedMoments(s);
    SquareOfNegated(v - Mean(s));
    assert -v - -Mean(s) == -(v - Mean(s));
  }

  // ----- the median -----

  lemma {:induction false} NegatedCount(s: seq<real>, x: real)
    ensures multiset(Negated(s))[x] == multiset(s)[-x]
  {
    hide Negated;
    if s == [] {
      NegatedNothing();
    } else {
      NegatedCount(s[1..], x);
      NegatedTail(s);
      CountFirst(s, -x);
      CountFirst(Negated(s), x);
    }
  }

  lemma CountFirst(s: seq<real>, x: real)
    requires s != []
    ensures multiset(s)[x] == multiset(s[1..])[x] + if s[0] == x then 1 else 0
  {
    assert s == [s[0]] + s[1..];
  }

  lemma {:induction false} ReversedKeeps(s: seq<real>)
    ensures multiset(Reversed(s)) == multiset(s)
  {
    if s != [] {
      ReversedKeeps(s[1..]);
      assert s == [s[0]] + s[1..] && Reversed(s) == Reversed(s[1..]) + [s[0]];
    }
  }

  /** Sorting the negated samples gives the negated sorted samples backwards. */
  lemma SortedNegated(s: seq<real>)
    ensures |Sorted(s)| == |s| && Sorted(Negated(s)) == Reversed(Negated(Sorted(s)))
  {
    hide Sorted;
    var t := Reversed(Negated(Sorted(s)));
    SortedKeeps(s, 0.0);
    SortedKeeps(Negated(s), 0.0);
    ReversedKeeps(Negated(Sorted(s)));
    forall x: real
      ensures multiset(t)[x] == multiset(Negated(s))[x]
    {
      NegatedCount(Sorted(s), x);
      NegatedCount(s, x);
    }
    SortedUnique(Sorted(Negated(s)), t);
  }

  lemma MedianNegated(s: seq<real>)
    ensures Median(Negated(s)) == -Median(s)
  {
    hide Sorted;
    SortedNegated(s);
    if s != [] {
      MiddleReversed(Sorted(s));
    }
  }

  lemma MiddleReversed(s: seq<real>)
    requires s != []
    ensures MedianOfSorted(Reversed(Negated(s))) == -MedianOfSorted(s)
  {
    var n := |s|;
    assert n - 1 - n / 2 == if n % 2 == 1 then n / 2 else n / 2 - 1;
  }

  lemma PushNegated(s: seq<real>, x: real, capacity: nat)
    ensures Push(Negated(s), -x, capacity) == Negated(Push(s, x, capacity))
  {
  }

  // ----- runs -----

  function Opposite(m: Measurement): Measurement {
    m.(offset := -m.offset)
  }

  function Mirror(ms: seq<Measurement>): (r: seq<Measurement>)
    ensures |r| == |ms| && forall i :: 0 <= i < |ms| ==> r[i] == Opposite(ms[i])
  {
    seq(|ms|, i requires 0 <= i < |ms| => Opposite(ms[i]))
  }

  /** The two clocks differ in the signs of the shift and of the correction of the ratio, and in nothing
      else. */
  predicate ClocksMirror(c: Clock, d: Clock) {
    d == Clock(c.lastSync, -c.shift, 2.0 - c.ratio, c.adjustments, c.calibrated)
  }

  predicate ServosMirror(s: Servo, t: Servo) {
    ClocksMirror(s.clock, t.clock) && t.offsets == Negated(s.offsets) && t.filtered == Negated(s.filtered) &&
    t.ignored == s.ignored
  }

  lemma RatioMirrored(offset: real)
    ensures NominalRatio(-offset) == 2.0 - NominalRatio(offset)
  {
    CubeScales(-1.0, -offset);
    assert -(-offset) == -1.0 * -offset;
  }

  lemma AdjustedMirrored(c: Clock, d: Clock, now: Timestamp, offset: real)
    requires ClocksMirror(c, d)
    ensures ClocksMirror(Adjusted(c, now, offset), Adjusted(d, now, -offset))
    ensures ClocksMirror(Stepped(c, now, offset), Stepped(d, now, -offset))
  {
    hide NominalRatio;
    RatioMirrored(offset);
  }

  lemma JudgeMirrored(s: Servo, t: Servo, offset: real)
    requires ServosMirror(s, t)
    ensures Judge(t, -offset) == Judge(s, offset)
  {
    hide Negated, IsFar, Push;
    PushNegated(s.offsets, offset, WINDOW);
    NegatedIsFar(Push(s.offsets, offset, WINDOW), offset, OUTLIER_THRESHOLD);
  }

  lemma MeasureMirrored(s: Servo, t: Servo, m: Measurement)
    requires ServosMirror(s, t)
    ensures ServosMirror(Measure(s, m), Measure(t, Opposite(m)))
  {
    hide Negated, Judge, Push, Median, Adjusted, Stepped;
    JudgeMirrored(s, t, m.offset);
    AdjustedMirrored(s.clock, t.clock, m.now, m.offset);
    PushNegated(s.offsets, m.offset, WINDOW);
    PushNegated(s.filtered, m.offset, WINDOW);
    MedianNegated(Push(s.offsets, m.offset, WINDOW));
    NegatedNothing();
  }

  /** Negating every offset of a run negates the shift and the correction of the ratio and leaves the
      verdicts, the number of adjustments, the calibration and the count of ignored outliers. */
  lemma {:induction false} RunMirrored(ms: seq<Measurement>)
    ensures ServosMirror(Run(ms), Run(Mirror(ms)))
    ensures forall k :: 0 <= k < |ms| ==> VerdictAt(Mirror(ms), k) == VerdictAt(ms, k)
    ensures AdjustmentsSinceStep(Mirror(ms)) == AdjustmentsSinceStep(ms)
    ensures Run(Mirror(ms)).clock.IsCalibrated() <==> Run(ms).clock.IsCalibrated()
  {
    hide Measure, Judge, Negated, GoodAt;
    if ms == [] {
      assert Mirror(ms) == [];
      NegatedNothing();
    } else {
      var (n, nn) := (|ms| - 1, Mirror(ms));
      assert nn[..n] == Mirror(ms[..n]);
      RunMirrored(ms[..n]);
      JudgeMirrored(Run(ms[..n]), Run(nn[..n]), ms[n].offset);
      MeasureMirrored(Run(ms[..n]), Run(nn[..n]), ms[n]);
      forall k | 0 <= k < |ms|
        ensures VerdictAt(nn, k) == VerdictAt(ms, k)
      {
        if k < n {
          VerdictOfPrefix(ms, n, k);
          VerdictOfPrefix(nn, n, k);
        }
      }
      CalibrationFlag(ms);
      CalibrationFlag(nn);
    }
  }
}
