/** The clock that follows the grandmaster: timestamps of whole nanoseconds, corrections in exact
    seconds. */
module PtpClock {
  import opened Statistics

  const NANOS_PER_SECOND: int := 1_000_000_000
  const LOCK_THRESHOLD := 10
  const MAX_RATIO := 0.5

  datatype Timestamp = Timestamp(seconds: nat, nanoseconds: nat) {
    predicate Valid() {
      nanoseconds < NANOS_PER_SECOND
    }

    function Nanos(): nat {
      seconds * NANOS_PER_SECOND + nanoseconds
    }

    function ToSeconds(): real {
      seconds as real + nanoseconds as real / NANOS_PER_SECOND as real
    }
  }

  /** The nearest integer to a non-negative number, halves up. */
  function RoundPositive(x: real): int {
    (x + 0.5).Floor
  }

  /** The nearest integer, halves away from zero. */
  function Round(x: real): int {
    if x < 0.0 then -RoundPositive(-x) else RoundPositive(x)
  }

  /** A duration in seconds as a whole number of nanoseconds. */
  function ToNanos(d: real): int {
    Round(d * NANOS_PER_SECOND as real)
  }

  /** Rounding goes to the nearest integer, from halfway to the one further from zero, and so is the same
      for both signs. */
  lemma RoundIsNearest(x: real)
    ensures x - 0.5 <= Round(x) as real <= x + 0.5
    ensures x == Round(x) as real + 0.5 ==> x < 0.0
    ensures x == Round(x) as real - 0.5 ==> x > 0.0
    ensures Round(-x) == -Round(x)
  {
  }

  lemma FloorShift(x: real, k: int)
    ensures (x + k as real).Floor == x.Floor + k
  {
  }

  /** Whole seconds and rounded nanoseconds of a non-negative duration make up its nanoseconds. */
  lemma SplitDuration(d: real)
    requires d >= 0.0
    ensures var nanos := RoundPositive((d - d.Floor as real) * NANOS_PER_SECOND as real);
      0 <= nanos <= NANOS_PER_SECOND && d.Floor * NANOS_PER_SECOND + nanos == ToNanos(d)
  {
    var (s, g) := (d.Floor, NANOS_PER_SECOND as real);
    var part := (d - s as real) * g;
    assert 0.0 <= part < g;
    assert d * g == part + (s * NANOS_PER_SECOND) as real;
    FloorShift(part + 0.5, s * NANOS_PER_SECOND);
  }

  /** Adds a duration, split into its whole seconds and its rounded nanoseconds; gives up at zero
      when the result would be negative. */
  function AddSeconds(t: Timestamp, d: real): Timestamp
    requires t.Valid()
  {
    SplitDuration(Abs(d));
    var seconds := Abs(d).Floor;
    var nanos := RoundPositive((Abs(d) - seconds as real) * NANOS_PER_SECOND as real);
    if d < 0.0 then
      var borrow := nanos > t.nanoseconds;
      if borrow && t.seconds < 1 then
        Timestamp(0, 0)
      else
        var s := if borrow then t.seconds - 1 else t.seconds;
        var n := if borrow then t.nanoseconds + NANOS_PER_SECOND else t.nanoseconds;
        if seconds > s then Timestamp(0, 0) else Timestamp(s - seconds, n - nanos)
    else
      var n := t.nanoseconds + nanos;
      if n >= NANOS_PER_SECOND then Timestamp(t.seconds + seconds + 1, n - NANOS_PER_SECOND)
      else Timestamp(t.seconds + seconds, n)
  }

  function AtLeastZero(n: int): nat {
    if n < 0 then 0 else n
  }

  /** In nanoseconds, adding is exact addition of the rounded duration, cut off at zero. */
  lemma AddSecondsIsAddition(t: Timestamp, d: real)
    requires t.Valid()
    ensures AddSeconds(t, d).Valid()
    ensures AddSeconds(t, d).Nanos() == AtLeastZero(t.Nanos() + ToNanos(d))
  {
    SplitDuration(Abs(d));
    assert ToNanos(d) == if d < 0.0 then -ToNanos(-d) else ToNanos(d) by {
      assert -(d * NANOS_PER_SECOND as real) == -d * NANOS_PER_SECOND as real;
    }
  }

  // ----- the clock -----

  datatype Clock = Clock(lastSync: Timestamp, shift: real, ratio: real, adjustments: nat, calibrated: bool) {
    predicate IsLocked() {
      adjustments >= LOCK_THRESHOLD
    }

    predicate IsCalibrated() {
      IsLocked() && calibrated
    }
  }

  const INITIAL := Clock(Timestamp(0, 0), 0.0, 1.0, 0, false)

  function Cube(x: real): real {
    x * x * x
  }

  function Clamp(x: real, lo: real, hi: real): real {
    if x < lo then lo else if hi < x then hi else x
  }

  function NominalRatio(offset: real): real {
    0.001 * Cube(-offset) + 1.0
  }

  function Adjusted(c: Clock, now: Timestamp, offset: real): Clock {
    Clock(now, c.shift - offset, Clamp(NominalRatio(offset), 1.0 - MAX_RATIO, 1.0 + MAX_RATIO),
          c.adjustments + 1, c.calibrated)
  }

  function Stepped(c: Clock, now: Timestamp, offset: real): Clock {
    Clock(now, c.shift - offset, 1.0, 0, false)
  }

  function Stretch(elapsed: real, ratio: real): real {
    elapsed * ratio
  }

  /** The time of the grandmaster at system time `t`. */
  function AdjustedTime(c: Clock, t: Timestamp): Timestamp
    requires c.lastSync.Valid()
  {
    var d := Stretch(t.ToSeconds() - c.lastSync.ToSeconds(), c.ratio);
    AddSecondsIsAddition(c.lastSync, d);
    AddSeconds(AddSeconds(c.lastSync, d), c.shift)
  }

  /** The nanoseconds of system time since the last synchronisation, stretched by the ratio. */
  function Stretched(c: Clock, t: Timestamp): real {
    Stretch((t.Nanos() - c.lastSync.Nanos()) as real, c.ratio)
  }

  lemma StretchedIsElapsed(c: Clock, t: Timestamp)
    ensures ToNanos(Stretch(t.ToSeconds() - c.lastSync.ToSeconds(), c.ratio)) == Round(Stretched(c, t))
  {
    hide Round;
    var e := t.ToSeconds() - c.lastSync.ToSeconds();
    SecondsNanos(t);
    SecondsNanos(c.lastSync);
    assert e * NANOS_PER_SECOND as real == (t.Nanos() - c.lastSync.Nanos()) as real;
    assert (e * c.ratio) * NANOS_PER_SECOND as real == (e * NANOS_PER_SECOND as real) * c.ratio;
    assert Stretch(e, c.ratio) * NANOS_PER_SECOND as real == Stretched(c, t);
  }

  lemma SecondsNanos(t: Timestamp)
    ensures t.ToSeconds() * NANOS_PER_SECOND as real == t.Nanos() as real
  {
  }

  /** The clock in nanoseconds: the last synchronisation, the stretched time since, the shift; cut off
      at zero after either addition. */
  function Reading(c: Clock, t: Timestamp): nat {
    AtLeastZero(AtLeastZero(c.lastSync.Nanos() + Round(Stretched(c, t))) + ToNanos(c.shift))
  }

  lemma AdjustedTimeIsReading(c: Clock, t: Timestamp)
    requires c.lastSync.Valid()
    ensures AdjustedTime(c, t).Valid() && AdjustedTime(c, t).Nanos() == Reading(c, t)
  {
    hide AddSeconds, ToNanos, Round, Stretch, Stretched, Timestamp.ToSeconds, Timestamp.Nanos;
    var d := Stretch(t.ToSeconds() - c.lastSync.ToSeconds(), c.ratio);
    StretchedIsElapsed(c, t);
    AddSecondsIsAddition(c.lastSync, d);
    AddSecondsIsAddition(AddSeconds(c.lastSync, d), c.shift);
  }

  /** At the instant of a synchronisation the ratio plays no part. */
  lemma ReadingAtSync(c: Clock)
    ensures Reading(c, c.lastSync) == AtLeastZero(c.lastSync.Nanos() + ToNanos(c.shift))
  {
    hide ToNanos, Timestamp.Nanos;
    assert Stretched(c, c.lastSync) == 0.0;
    assert Round(0.0) == 0;
  }

  lemma RoundOrdered(x: real, y: real)
    requires x <= y
    ensures Round(x) <= Round(y)
    ensures y - x - 1.0 <= (Round(y) - Round(x)) as real <= y - x + 1.0
    ensures y >= x + 1.0 ==> Round(x) < Round(y)
  {
  }

  lemma StretchedOrdered(c: Clock, t: Timestamp, u: Timestamp)
    requires c.ratio >= 0.0 && t.Nanos() <= u.Nanos()
    ensures Stretched(c, u) - Stretched(c, t) == (u.Nanos() - t.Nanos()) as real * c.ratio >= 0.0
  {
    var (l, r) := (c.lastSync.Nanos(), c.ratio);
    assert (u.Nanos() - l) as real * r - (t.Nanos() - l) as real * r == (u.Nanos() - t.Nanos()) as real * r;
  }

  /** Between synchronisations the clock never runs backwards. */
  lemma NeverBackwards(c: Clock, t: Timestamp, u: Timestamp)
    requires c.ratio >= 0.0 && t.Nanos() <= u.Nanos()
    ensures Reading(c, t) <= Reading(c, u)
  {
    hide Stretched, Round, ToNanos, Timestamp.Nanos;
    StretchedOrdered(c, t, u);
    RoundOrdered(Stretched(c, t), Stretched(c, u));
  }

  /** From the last synchronisation on, and unless it is cut off at zero, the clock advances by the
      ratio times the system time, give or take a nanosecond; so it advances strictly over any stretch
      that the ratio makes a nanosecond or more. */
  lemma AdvancesByRatio(c: Clock, t: Timestamp, u: Timestamp)
    requires c.ratio >= 0.0 && c.lastSync.Nanos() <= t.Nanos() <= u.Nanos() && Reading(c, t) > 0
    ensures var stretched := (u.Nanos() - t.Nanos()) as real * c.ratio;
      stretched - 1.0 <= (Reading(c, u) - Reading(c, t)) as real <= stretched + 1.0 &&
      (stretched >= 1.0 ==> Reading(c, t) < Reading(c, u))
  {
    hide Stretched, Round, ToNanos, Timestamp.Nanos;
    StretchedOrdered(c, c.lastSync, t);
    StretchedOrdered(c, t, u);
    NothingStretched(c);
    RoundOrdered(Stretched(c, c.lastSync), Stretched(c, t));
    RoundOrdered(Stretched(c, t), Stretched(c, u));
  }

  lemma NothingStretched(c: Clock)
    ensures Stretched(c, c.lastSync) == 0.0 && Round(Stretched(c, c.lastSync)) == 0
  {
  }

  lemma SmallCube(x: real)
    requires -1.0 < x < 1.0
    ensures -1.0 < Cube(x) < 1.0
  {
    var y := x * x;
    assert 0.0 <= y < 1.0 by {
      if x >= 0.0 {
        assert x * x <= x * 1.0;
      } else {
        assert (-x) * (-x) <= (-x) * 1.0;
        assert (-x) * (-x) == x * x;
      }
    }
    if x >= 0.0 {
      assert 0.0 <= y * x <= y * 1.0;
    } else {
      assert 0.0 <= y * (-x) <= y * 1.0;
      assert y * (-x) == -(y * x);
    }
  }

  /** For an offset below a second the ratio is within a thousandth of 1, so it is never clamped. */
  lemma SmallOffsetRatio(c: Clock, now: Timestamp, offset: real)
    requires -1.0 < offset < 1.0
    ensures 0.999 < Adjusted(c, now, offset).ratio == NominalRatio(offset) < 1.001
  {
    SmallCube(-offset);
  }

  /** A clock that is ahead is slowed down and one that is behind is sped up, never beyond a half. */
  lemma RatioCorrects(c: Clock, now: Timestamp, offset: real)
    ensures var ratio := Adjusted(c, now, offset).ratio;
      && 0.5 <= ratio <= 1.5
      && (offset > 0.0 <==> ratio < 1.0)
      && (offset < 0.0 <==> ratio > 1.0)
  {
    CubeSign(-offset);
  }

  lemma CubeSign(x: real)
    ensures (Cube(x) > 0.0 <==> x > 0.0) && (Cube(x) < 0.0 <==> x < 0.0)
  {
    if x > 0.0 {
      PositiveCube(x, x, x);
    } else if x < 0.0 {
      PositiveCube(-x, -x, -x);
      assert (-x) * (-x) == x * x;
      assert x * x * (-x) == -(x * x * x);
    }
  }

  lemma PositiveCube(x: real, y: real, z: real)
    requires x > 0.0 && y > 0.0 && z > 0.0
    ensures x * y * z > 0.0
  {
    var p := x * y;
    assert p > 0.0;
    assert p * z > 0.0;
  }

  /** The correction is a thousandth at one second and grows with the cube of the offset: eightfold for
      twice the offset. */
  lemma RatioIsCubic(offset: real, k: real)
    ensures NominalRatio(1.0) == 0.999 && NominalRatio(-1.0) == 1.001
    ensures NominalRatio(k * offset) - 1.0 == k * k * k * (NominalRatio(offset) - 1.0)
    ensures NominalRatio(2.0 * offset) - 1.0 == 8.0 * (NominalRatio(offset) - 1.0)
  {
    CubeScales(k, -offset);
    CubeScales(2.0, -offset);
    assert -(k * offset) == k * -offset && -(2.0 * offset) == 2.0 * -offset;
    assert 0.001 * (k * k * k * Cube(-offset)) == k * k * k * (0.001 * Cube(-offset));
  }

  lemma CubeScales(k: real, x: real)
    ensures Cube(k * x) == k * k * k * Cube(x)
  {
    assert (k * x) * (k * x) == (k * k) * (x * x);
    assert ((k * k) * (x * x)) * (k * x) == (k * k * k) * (x * x * x);
  }

  /** The ratio is the nominal one from half to one and a half, and the nearer end outside. */
  lemma RatioClamped(c: Clock, now: Timestamp, offset: real)
    ensures var (ratio, nominal) := (Adjusted(c, now, offset).ratio, NominalRatio(offset));
      if nominal < 0.5 then ratio == 0.5 else if nominal > 1.5 then ratio == 1.5 else ratio == nominal
  {
  }

  /** The object that holds the clock. */
  class LocalClock {
    var lastSync: Timestamp
    var shift: real
    var frequencyRatio: real
    var adjustmentsSinceLastStep: nat
    var calibrated: bool

    function View(): Clock
      reads this
    {
      Clock(lastSync, shift, frequencyRatio, adjustmentsSinceLastStep, calibrated)
    }

    constructor ()
      ensures View() == INITIAL
    {
      lastSync, shift, frequencyRatio := Timestamp(0, 0), 0.0, 1.0;
      adjustmentsSinceLastStep, calibrated := 0, false;
    }

    /** `now` is the system clock's reading. */
    method Adjust(now: Timestamp, offsetFromMaster: real)
      modifies this
      ensures View() == Adjusted(old(View()), now, offsetFromMaster)
    {
      lastSync := now;
      shift := shift + -offsetFromMaster;
      var nominalRatio := 0.001 * Cube(-offsetFromMaster) + 1.0;
      frequencyRatio := Clamp(nominalRatio, 1.0 - MAX_RATIO, 1.0 + MAX_RATIO);
      adjustmentsSinceLastStep := adjustmentsSinceLastStep + 1;
    }

    method Step(now: Timestamp, offsetFromMaster: real)
      modifies this
      ensures View() == Stepped(old(View()), now, offsetFromMaster)
    {
      lastSync := now;
      shift := shift + -offsetFromMaster;
      frequencyRatio := 1.0;
      adjustmentsSinceLastStep := 0;
      calibrated := false;
    }

    method SetCalibrated(value: bool)
      modifies this
      ensures View() == old(View()).(calibrated := value)
    {
      calibrated := value;
    }

    method GetAdjustedTime(systemTime: Timestamp) returns (result: Timestamp)
      requires lastSync.Valid()
      ensures result.Valid() && result.Nanos() == Reading(View(), systemTime)
    {
      hide AddSeconds, ToNanos, Reading, Stretch;
      AdjustedTimeIsReading(View(), systemTime);
      var elapsed := Stretch(systemTime.ToSeconds() - lastSync.ToSeconds(), frequencyRatio);
      AddSecondsIsAddition(lastSync, elapsed);
      result := AddSeconds(lastSync, elapsed);
      result := AddSeconds(result, shift);
    }
  }
}
