/** The statistics of a window of measurements, over exact reals, and what holds between them. */
module Statistics {

  function Abs(x: real): real {
    if x < 0.0 then -x else x
  }

  function Min(x: real, y: real): real {
    if y < x then y else x
  }

  function Max(x: real, y: real): real {
    if x < y then y else x
  }

  function Sum(s: seq<real>): real {
    if s == [] then 0.0 else s[0] + Sum(s[1..])
  }

  function Mean(s: seq<real>): real {
    if s == [] then 0.0 else Sum(s) / |s| as real
  }

  function Product(x: real, y: real): real {
    x * y
  }

  function Square(x: real): (r: real)
    ensures r >= 0.0
  {
    Product(x, x)
  }

  /** The sum of the squared deviations from `c`. */
  function SumSquares(s: seq<real>, c: real): (r: real)
    ensures r >= 0.0
  {
    if s == [] then 0.0 else Square(s[0] - c) + SumSquares(s[1..], c)
  }

  /** The sum of the absolute deviations from `c`. */
  function SumAbs(s: seq<real>, c: real): (r: real)
    ensures r >= 0.0
  {
    if s == [] then 0.0 else Abs(s[0] - c) + SumAbs(s[1..], c)
  }

  function Variance(s: seq<real>): real {
    if s == [] then 0.0 else SumSquares(s, Mean(s)) / |s| as real
  }

  // ----- sorting -----

  predicate IsSorted(s: seq<real>) {
    forall i, j :: 0 <= i < j < |s| ==> s[i] <= s[j]
  }

  function Insert(x: real, s: seq<real>): seq<real> {
    if s == [] || x <= s[0] then [x] + s else [s[0]] + Insert(x, s[1..])
  }

  /** The sorted sequence of the same elements. */
  function Sorted(s: seq<real>): seq<real> {
    if s == [] then [] else Insert(s[0], Sorted(s[1..]))
  }

  lemma {:induction false} InsertKeeps(x: real, s: seq<real>)
    ensures |Insert(x, s)| == |s| + 1 && multiset(Insert(x, s)) == multiset{x} + multiset(s)
  {
    if s == [] || x <= s[0] {
    } else {
      InsertKeeps(x, s[1..]);
      assert s == [s[0]] + s[1..];
    }
  }

  lemma {:induction false} InsertSorts(x: real, s: seq<real>)
    requires IsSorted(s)
    ensures IsSorted(Insert(x, s))
  {
    if s == [] {
    } else if x <= s[0] {
      ConsSorts(x, s);
    } else {
      var r := Insert(x, s[1..]);
      InsertSorts(x, s[1..]);
      InsertKeeps(x, s[1..]);
      forall i | 0 <= i < |r|
        ensures s[0] <= r[i]
      {
        assert r[i] in multiset(r);
        assert r[i] == x || r[i] in s[1..];
      }
      ConsSorts(s[0], r);
    }
  }

  lemma ConsSorts(x: real, s: seq<real>)
    requires IsSorted(s) && forall i :: 0 <= i < |s| ==> x <= s[i]
    ensures IsSorted([x] + s)
  {
  }

  lemma {:induction false} InsertSum(x: real, s: seq<real>, c: real)
    ensures SumAbs(Insert(x, s), c) == Abs(x - c) + SumAbs(s, c)
  {
    if s == [] || x <= s[0] {
      assert ([x] + s)[1..] == s;
    } else {
      InsertSum(x, s[1..], c);
      assert Insert(x, s)[1..] == Insert(x, s[1..]);
    }
  }

  lemma NothingSorted()
    ensures IsSorted([])
  {
  }

  lemma {:induction false} SortedKeeps(s: seq<real>, c: real)
    ensures IsSorted(Sorted(s)) && |Sorted(s)| == |s|
    ensures multiset(Sorted(s)) == multiset(s)
    ensures SumAbs(Sorted(s), c) == SumAbs(s, c)
  {
    hide IsSorted, Insert, Abs;
    if s == [] {
      NothingSorted();
    } else {
      SortedKeeps(s[1..], c);
      InsertKeeps(s[0], Sorted(s[1..]));
      InsertSorts(s[0], Sorted(s[1..]));
      InsertSum(s[0], Sorted(s[1..]), c);
      assert s == [s[0]] + s[1..];
    }
  }

  lemma SameFirst(s: seq<real>, r: seq<real>)
    requires IsSorted(s) && IsSorted(r) && s != [] && r != [] && s[0] in multiset(r) && r[0] in multiset(s)
    ensures s[0] == r[0]
  {
    var i :| 0 <= i < |r| && r[i] == s[0];
    var j :| 0 <= j < |s| && s[j] == r[0];
  }

  lemma TailMultiset(s: seq<real>)
    requires s != []
    ensures multiset(s[1..]) == multiset(s) - multiset{s[0]} && s[0] in multiset(s)
  {
    assert s == [s[0]] + s[1..];
  }

  lemma TailSorted(s: seq<real>)
    requires IsSorted(s) && s != []
    ensures IsSorted(s[1..])
  {
  }

  /** Whatever sorts, sorts to the same sequence. */
  lemma {:induction false} SortedUnique(s: seq<real>, r: seq<real>)
    requires IsSorted(s) && IsSorted(r) && multiset(s) == multiset(r)
    ensures s == r
  {
    hide IsSorted;
    assert |multiset(s)| == |s| && |multiset(r)| == |r|;
    if s != [] {
      TailMultiset(s);
      TailMultiset(r);
      SameFirst(s, r);
      TailSorted(s);
      TailSorted(r);
      SortedUnique(s[1..], r[1..]);
      assert s == [s[0]] + s[1..] && r == [r[0]] + r[1..];
    }
  }

  // ----- the median -----

  function MedianOfSorted(s: seq<real>): real
    requires s != []
  {
    var n := |s|;
    if n % 2 == 1 then s[n / 2] else (s[n / 2 - 1] + s[n / 2]) / 2.0
  }

  function Median(s: seq<real>): real {
    SortedKeeps(s, 0.0);
    if s == [] then 0.0 else MedianOfSorted(Sorted(s))
  }

  lemma {:induction false} SumAbsSnoc(s: seq<real>, x: real, c: real)
    ensures SumAbs(s + [x], c) == SumAbs(s, c) + Abs(x - c)
  {
    if s == [] {
      assert [] + [x] == [x];
    } else {
      SumAbsSnoc(s[1..], x, c);
      assert (s + [x])[1..] == s[1..] + [x];
    }
  }

  lemma PairMinimises(lo: real, m: real, hi: real, c: real)
    requires lo <= m <= hi
    ensures Abs(lo - m) + Abs(hi - m) <= Abs(lo - c) + Abs(hi - c)
  {
  }

  lemma PeelEnds(s: seq<real>, c: real)
    requires |s| >= 2
    ensures SumAbs(s, c) == Abs(s[0] - c) + Abs(s[|s| - 1] - c) + SumAbs(s[1..|s| - 1], c)
  {
    hide Abs;
    var (n, rest) := (|s|, s[1..]);
    assert rest == s[1..n - 1] + [s[n - 1]];
    SumAbsSnoc(s[1..n - 1], s[n - 1], c);
  }

  /** The median of a sorted sequence minimises the sum of the absolute deviations: its smallest and
      its largest element can be taken away together. */
  lemma {:induction false} MedianOfSortedMinimises(s: seq<real>, c: real)
    requires s != [] && IsSorted(s)
    ensures s[0] <= MedianOfSorted(s) <= s[|s| - 1]
    ensures SumAbs(s, MedianOfSorted(s)) <= SumAbs(s, c)
    decreases |s|
  {
    hide SumAbs, Abs;
    var (n, m) := (|s|, MedianOfSorted(s));
    if n == 1 {
      AloneMinimises(s, c);
    } else {
      var mid := s[1..n - 1];
      PeelEnds(s, c);
      PeelEnds(s, m);
      if n == 2 {
        assert mid == [];
        NothingToSum(m);
        NothingToSum(c);
      } else {
        MedianOfSortedMinimises(mid, c);
        assert MedianOfSorted(mid) == m;
      }
      PairMinimises(s[0], m, s[n - 1], c);
    }
  }

  lemma NothingToSum(c: real)
    ensures SumAbs([], c) == 0.0
  {
  }

  lemma AloneMinimises(s: seq<real>, c: real)
    requires |s| == 1
    ensures SumAbs(s, s[0]) <= SumAbs(s, c)
  {
  }

  /** The median minimises the sum of the absolute deviations. */
  lemma MedianMinimises(s: seq<real>, c: real)
    requires s != []
    ensures SumAbs(s, Median(s)) <= SumAbs(s, c)
  {
    SortedKeeps(s, c);
    SortedKeeps(s, Median(s));
    MedianOfSortedMinimises(Sorted(s), c);
  }

  // ----- sums of deviations -----

  /** `n` times `c`. */
  function Times(n: nat, c: real): real {
    n as real * c
  }

  lemma TimesNext(n: nat, c: real)
    ensures Times(n + 1, c) == Times(n, c) + c
  {
    assert (n + 1) as real == n as real + 1.0;
  }

  lemma TimesZero(c: real)
    ensures Times(0, c) == 0.0
  {
  }

  lemma TimesMonotone(j: nat, k: nat, c: real)
    requires j <= k && c >= 0.0
    ensures Times(j, c) <= Times(k, c)
  {
  }

  /** The deviations from `c` add up to at most their absolute values. */
  lemma {:induction false} SumBelowSumAbs(s: seq<real>, c: real)
    ensures Abs(Sum(s) - Times(|s|, c)) <= SumAbs(s, c)
  {
    if s != [] {
      SumBelowSumAbs(s[1..], c);
      TimesNext(|s[1..]|, c);
    }
  }

  function SumShifted(s: seq<real>, c: real, t: real): (r: real)
    ensures r >= 0.0
  {
    if s == [] then 0.0 else Square(Abs(s[0] - c) - t) + SumShifted(s[1..], c, t)
  }

  lemma ShiftOne(d: real, t: real, squares: real, sum: real, n: nat, shifted: real)
    requires shifted == squares - 2.0 * (t * sum) + Times(n, t * t)
    ensures Square(Abs(d) - t) + shifted == Square(d) + squares - 2.0 * (t * (Abs(d) + sum)) + Times(n + 1, t * t)
  {
    TimesNext(n, t * t);
    assert t * (Abs(d) + sum) == t * Abs(d) + t * sum;
    assert Square(Abs(d) - t) == Square(d) - 2.0 * (t * Abs(d)) + t * t;
  }

  lemma {:induction false} ShiftedSquares(s: seq<real>, c: real, t: real)
    ensures SumShifted(s, c, t) == SumSquares(s, c) - 2.0 * (t * SumAbs(s, c)) + Times(|s|, t * t)
  {
    hide Square, Times, Abs, Product;
    TimesZero(t * t);
    if s != [] {
      ShiftedSquares(s[1..], c, t);
      ShiftOne(s[0] - c, t, SumSquares(s[1..], c), SumAbs(s[1..], c), |s[1..]|, SumShifted(s[1..], c, t));
    }
  }

  /** The square of a sum of n absolute deviations is at most n times the sum of their squares. */
  lemma SquareOfSum(s: seq<real>, c: real)
    ensures Square(SumAbs(s, c)) <= Times(|s|, SumSquares(s, c))
  {
    hide Square, Times, SumShifted;
    if s == [] {
      NoSquares(c);
    } else {
      var t := SumAbs(s, c) / |s| as real;
      ShiftedSquares(s, c, t);
      Discriminant(|s|, SumAbs(s, c), SumSquares(s, c), t);
    }
  }

  lemma NoSquares(c: real)
    ensures Square(SumAbs([], c)) <= Times(0, SumSquares([], c))
  {
  }

  lemma Discriminant(n: nat, a: real, q: real, t: real)
    requires n > 0 && t == a / n as real && q - 2.0 * (t * a) + Times(n, t * t) >= 0.0
    ensures Square(a) <= Times(n, q)
  {
    var r := n as real;
    assert r * t == a;
    assert r * (t * t) == (r * t) * t;
    assert q >= t * a;
    ScaleUp(r, t * a, q);
    assert r * (t * a) == (r * t) * a;
  }

  lemma ScaleUp(n: real, x: real, y: real)
    requires n >= 0.0 && x <= y
    ensures n * x <= n * y
  {
  }

  lemma SquareMonotone(x: real, y: real)
    requires Abs(x) <= y
    ensures Square(x) <= Square(y)
  {
    assert Square(x) == Abs(x) * Abs(x) by {
      assert (-x) * (-x) == x * x;
    }
    ScaleUp(Abs(x), Abs(x), y);
    ScaleUp(y, Abs(x), y);
  }

  lemma TimesQuotient(n: nat, x: real)
    requires n > 0
    ensures Times(n, x / n as real) == x
  {
  }

  lemma MeanTimes(s: seq<real>)
    requires s != []
    ensures Times(|s|, Mean(s)) == Sum(s)
  {
    TimesQuotient(|s|, Sum(s));
  }

  lemma VarianceTimes(s: seq<real>)
    requires s != []
    ensures Times(|s|, Variance(s)) == SumSquares(s, Mean(s)) && Variance(s) >= 0.0
  {
    hide Times, SumSquares, Mean, Square;
    TimesQuotient(|s|, SumSquares(s, Mean(s)));
  }

  /** The mean is never further from the median than one standard deviation. */
  lemma MeanNearMedian(s: seq<real>)
    requires s != []
    ensures Square(Mean(s) - Median(s)) <= Variance(s)
  {
    var (m, d) := (Mean(s), Median(s));
    SumBelowSumAbs(s, d);
    MedianMinimises(s, m);
    SquareOfSum(s, m);
    MeanTimes(s);
    VarianceTimes(s);
    CombineMeanMedian(|s|, m, d, SumAbs(s, m), Variance(s));
  }

  lemma CombineMeanMedian(n: nat, m: real, d: real, a: real, v: real)
    requires n > 0 && Abs(Times(n, m) - Times(n, d)) <= a && Square(a) <= Times(n, Times(n, v))
    ensures Square(m - d) <= v
  {
    var r := n as real;
    assert Times(n, m) - Times(n, d) == r * (m - d);
    SquareMonotone(r * (m - d), a);
    assert Square(r * (m - d)) == r * (r * Square(m - d));
    CancelFactor(r, r * Square(m - d), r * v);
    CancelFactor(r, Square(m - d), v);
  }

  lemma CancelFactor(n: real, x: real, y: real)
    requires n > 0.0 && n * x <= n * y
    ensures x <= y
  {
    assert n * (x - y) == n * x - n * y;
  }

  // ----- the z-score filter -----

  /** `sd` is the non-negative square root of `variance`. */
  predicate IsStdDev(sd: real, variance: real) {
    sd >= 0.0 && Square(sd) == variance
  }

  predicate IsOutlier(value: real, mean: real, sd: real, threshold: real) {
    sd != 0.0 && Abs((value - mean) / sd) > threshold
  }

  /** The filter as a comparison of squares. A negative threshold flags whatever is compared. */
  lemma OutlierIff(value: real, mean: real, sd: real, t: real)
    requires sd >= 0.0
    ensures IsOutlier(value, mean, sd, t) <==>
      sd > 0.0 && (t < 0.0 || Square(value - mean) > Product(Square(t), Square(sd)))
  {
    if sd > 0.0 && t >= 0.0 {
      QuotientAbove(value - mean, sd, t);
      SquareOfProduct(t, sd);
      SquaresCompare(Abs(value - mean), t * sd);
      SquareOfAbs(value - mean);
    }
  }

  lemma QuotientAbove(d: real, sd: real, t: real)
    requires sd > 0.0
    ensures Abs(d / sd) > t <==> Abs(d) > t * sd
  {
    var q := d / sd;
    assert q * sd == d;
    assert Abs(q) * sd == Abs(d);
    if Abs(q) > t {
      assert (Abs(q) - t) * sd > 0.0;
    } else {
      ScaleUp(sd, Abs(q), t);
    }
  }

  lemma SquareOfProduct(x: real, y: real)
    ensures Square(x * y) == Product(Square(x), Square(y))
  {
    assert (x * y) * (x * y) == x * (y * (x * y)) == x * (x * (y * y)) == (x * x) * (y * y);
  }

  lemma SquareOfAbs(x: real)
    ensures Square(Abs(x)) == Square(x)
  {
    assert (-x) * (-x) == x * x;
  }

  lemma SquaresCompare(x: real, y: real)
    requires x >= 0.0 && y >= 0.0
    ensures x > y <==> Square(x) > Square(y)
  {
    if x > y {
      SquareStrict(x, y);
    } else {
      SquareMonotone(x, y);
    }
  }

  lemma SquareStrict(x: real, y: real)
    requires x > y >= 0.0
    ensures Square(x) > Square(y)
  {
    hide Product;
    ProductMonotone(y, y, x);
    ProductStrict(x, y, x);
    ProductCommutes(x, y);
  }

  lemma ProductMonotone(n: real, x: real, y: real)
    requires n >= 0.0 && x <= y
    ensures Product(n, x) <= Product(n, y)
  {
  }

  lemma ProductStrict(n: real, x: real, y: real)
    requires n > 0.0 && x < y
    ensures Product(n, x) < Product(n, y)
  {
  }

  lemma ProductCommutes(x: real, y: real)
    ensures Product(x, y) == Product(y, x)
  {
  }

  /** The filter without the square root. */
  predicate IsFar(s: seq<real>, v: real, t: real) {
    Variance(s) > 0.0 && Square(v - Mean(s)) > Product(Square(t), Variance(s))
  }

  lemma FlaggedIsFar(s: seq<real>, v: real, sd: real, t: real)
    requires t >= 0.0 && IsStdDev(sd, Variance(s))
    ensures IsOutlier(v, Mean(s), sd, t) <==> IsFar(s, v, t)
  {
    hide Variance, Mean, IsOutlier, Product;
    OutlierIff(v, Mean(s), sd, t);
    SquaresCompare(sd, 0.0);
    assert Square(0.0) == 0.0 by {
      ZeroProduct();
    }
  }

  lemma ZeroProduct()
    ensures Product(0.0, 0.0) == 0.0
  {
  }

  /** How many elements of `s` the filter flags. */
  function Outliers(s: seq<real>, mean: real, sd: real, t: real): nat {
    if s == [] then 0 else (if IsOutlier(s[0], mean, sd, t) then 1 else 0) + Outliers(s[1..], mean, sd, t)
  }

  /** Each flagged element contributes more than `t * t * sd * sd` to the sum of squares. */
  lemma {:induction false} OutliersWeigh(s: seq<real>, m: real, sd: real, t: real)
    requires sd >= 0.0 && t >= 0.0
    ensures Times(Outliers(s, m, sd, t), Product(Square(t), Square(sd))) <= SumSquares(s, m)
    ensures Outliers(s, m, sd, t) > 0 ==>
      Times(Outliers(s, m, sd, t), Product(Square(t), Square(sd))) < SumSquares(s, m)
  {
    hide Square, Times, Product, IsOutlier;
    var b := Product(Square(t), Square(sd));
    TimesZero(b);
    if s != [] {
      OutliersWeigh(s[1..], m, sd, t);
      OutlierIff(s[0], m, sd, t);
      TimesNext(Outliers(s[1..], m, sd, t), b);
    }
  }

  lemma CancelVariance(k: nat, n: nat, tt: real, v: real)
    requires v > 0.0 && Times(k, Product(tt, v)) < Times(n, v)
    ensures Times(k, tt) < n as real
  {
    var (x, r) := (k as real, n as real);
    assert x * (tt * v) == (x * tt) * v;
    if r <= x * tt {
      ScaleUp(v, r, x * tt);
    }
  }

  lemma NoDeviationNoOutlier(s: seq<real>, m: real, t: real)
    ensures Outliers(s, m, 0.0, t) == 0
  {
    if s != [] {
      NoDeviationNoOutlier(s[1..], m, t);
    }
  }

  /** At threshold t fewer than n / (t * t) of the n samples of a window are flagged. */
  lemma FewOutliers(s: seq<real>, sd: real, t: real)
    requires t >= 0.0 && IsStdDev(sd, Variance(s))
    ensures Outliers(s, Mean(s), sd, t) == 0 || Times(Outliers(s, Mean(s), sd, t), Square(t)) < |s| as real
  {
    hide Square, Times, Product, IsOutlier, Variance, Mean, SumSquares;
    if s == [] {
    } else if sd == 0.0 {
      NoDeviationNoOutlier(s, Mean(s), t);
    } else if Outliers(s, Mean(s), sd, t) > 0 {
      OutliersWeigh(s, Mean(s), sd, t);
      VarianceTimes(s);
      PositiveSquare(sd);
      CancelVariance(Outliers(s, Mean(s), sd, t), |s|, Square(t), Square(sd));
    }
  }

  lemma PositiveSquare(x: real)
    requires x > 0.0
    ensures Square(x) > 0.0
  {
    SquaresCompare(x, 0.0);
  }

  // ----- samples at or beyond a value -----

  function Copies(s: seq<real>, v: real): (k: nat)
    ensures k <= |s|
  {
    if s == [] then 0 else (if s[0] == v then 1 else 0) + Copies(s[1..], v)
  }

  /** Seen from `c`, `x` is at `v` or beyond it. */
  predicate IsBeyond(x: real, v: real, c: real) {
    if v >= c then x >= v else x <= v
  }

  /** How many samples lie at `v` or beyond it, seen from `c`. */
  function Beyond(s: seq<real>, v: real, c: real): (k: nat)
    ensures k <= |s|
  {
    if s == [] then 0 else (if IsBeyond(s[0], v, c) then 1 else 0) + Beyond(s[1..], v, c)
  }

  lemma {:induction false} CopiesAreBeyond(s: seq<real>, v: real, c: real)
    ensures Copies(s, v) <= Beyond(s, v, c)
  {
    if s != [] {
      CopiesAreBeyond(s[1..], v, c);
    }
  }

  /** A lower bound for the squares of deviations with the sum `sum`, of which `k` are at `d` or beyond
      and `rest` are anything: it holds for every `t` on the other side of 0. */
  ghost predicate Gap(squares: real, sum: real, d: real, t: real, k: nat, rest: nat) {
    squares - 2.0 * Product(t, sum) >= Times(k, Square(d) - 2.0 * Product(t, d)) - Times(rest, Square(t))
  }

  lemma GapBeyond(squares: real, sum: real, e: real, d: real, t: real, k: nat, rest: nat)
    requires Gap(squares, sum, d, t, k, rest) && (e >= d >= 0.0 >= t || e <= d <= 0.0 <= t)
    ensures Gap(Square(e) + squares, e + sum, d, t, k + 1, rest)
  {
    hide Times;
    TimesNext(k, Square(d) - 2.0 * Product(t, d));
    Distribute(t, e, sum);
    FurtherOut(e, d, t);
  }

  /** `e * e - 2 * t * e` does not decrease with the distance from `t`. */
  lemma FurtherOut(e: real, d: real, t: real)
    requires e >= d >= 0.0 >= t || e <= d <= 0.0 <= t
    ensures Square(e) - 2.0 * (t * e) >= Square(d) - 2.0 * Product(t, d)
  {
    assert e * e - 2.0 * (t * e) - (d * d - 2.0 * (t * d)) == (e - d) * (e + d - 2.0 * t);
    if e >= d && d >= 0.0 && t <= 0.0 {
      ScaleUp(e - d, 0.0, e + d - 2.0 * t);
    } else {
      ScaleUp(d - e, 0.0, 2.0 * t - e - d);
    }
  }

  lemma GapOther(squares: real, sum: real, e: real, d: real, t: real, k: nat, rest: nat)
    requires Gap(squares, sum, d, t, k, rest)
    ensures Gap(Square(e) + squares, e + sum, d, t, k, rest + 1)
  {
    hide Times;
    TimesNext(rest, Square(t));
    Distribute(t, e, sum);
    assert Square(e - t) == Square(e) - 2.0 * (t * e) + Square(t);
  }

  lemma Distribute(t: real, x: real, y: real)
    ensures Product(t, x + y) == t * x + Product(t, y)
  {
  }

  lemma {:induction false} BeyondGap(s: seq<real>, v: real, c: real, t: real)
    requires if v >= c then t <= 0.0 else t >= 0.0
    ensures Gap(SumSquares(s, c), Sum(s) - Times(|s|, c), v - c, t, Beyond(s, v, c), |s| - Beyond(s, v, c))
  {
    hide Gap, Square, Times, Product;
    if s == [] {
      GapNothing(v, c, t);
    } else {
      var r := s[1..];
      BeyondGap(r, v, c, t);
      TimesNext(|r|, c);
      var (sq, su) := (SumSquares(r, c), Sum(r) - Times(|r|, c));
      if IsBeyond(s[0], v, c) {
        GapBeyond(sq, su, s[0] - c, v - c, t, Beyond(r, v, c), |r| - Beyond(r, v, c));
      } else {
        GapOther(sq, su, s[0] - c, v - c, t, Beyond(r, v, c), |r| - Beyond(r, v, c));
      }
    }
  }

  lemma GapNothing(v: real, c: real, t: real)
    ensures Gap(0.0, 0.0 - Times(0, c), v - c, t, 0, 0)
  {
  }

  /** When k of the n samples of a window lie at v or beyond it on its side of the mean, v is within
      sqrt((n - k) / k) standard deviations of the mean. */
  lemma BeyondNearMean(s: seq<real>, v: real)
    requires s != []
    ensures var k := Beyond(s, v, Mean(s));
      Times(k, Square(v - Mean(s))) <= Times(|s| - k, Variance(s))
  {
    hide Gap, Square, Times, Mean, Variance, SumSquares, Beyond, Sum;
    var (k, n, d) := (Beyond(s, v, Mean(s)), |s|, v - Mean(s));
    MeanTimes(s);
    VarianceTimes(s);
    if k < n {
      var t := -Times(k, d) / (n - k) as real;
      OppositeSide(k, n - k, d, t);
      BeyondGap(s, v, Mean(s), t);
      BestShift(Variance(s), d, t, k, n);
    } else {
      AllBeyond(s, v, Mean(s));
      NoDistance(n, d, v, Mean(s), Variance(s));
    }
  }

  lemma OppositeSide(k: nat, rest: nat, d: real, t: real)
    requires rest > 0 && t == -Times(k, d) / rest as real
    ensures if d >= 0.0 then t <= 0.0 else t >= 0.0
  {
    TimesQuotient(rest, -Times(k, d));
    if d >= 0.0 {
      ScaleUp(k as real, 0.0, d);
      CancelFactor(rest as real, t, 0.0);
    } else {
      ScaleUp(k as real, d, 0.0);
      CancelFactor(rest as real, 0.0, t);
    }
  }

  /** When all samples lie at v or beyond, so does their mean. */
  lemma {:induction false} AllBeyond(s: seq<real>, v: real, c: real)
    requires Beyond(s, v, c) == |s|
    ensures if v >= c then Sum(s) >= Times(|s|, v) else Sum(s) <= Times(|s|, v)
  {
    hide Times;
    TimesZero(v);
    if s != [] {
      AllBeyond(s[1..], v, c);
      TimesNext(|s[1..]|, v);
    }
  }

  lemma NoDistance(n: nat, d: real, v: real, m: real, variance: real)
    requires n > 0 && d == v - m && if v >= m then Times(n, m) >= Times(n, v) else Times(n, m) <= Times(n, v)
    ensures Times(n, Square(d)) <= Times(0, variance)
  {
    if v >= m {
      CancelFactor(n as real, v, m);
    } else {
      CancelFactor(n as real, m, v);
    }
    assert d == 0.0;
  }

  /** A value that occurs k times among n samples is within sqrt((n - k) / k) standard deviations of
      the mean. */
  lemma RepeatedNearMean(s: seq<real>, v: real)
    requires s != []
    ensures Times(Copies(s, v), Square(v - Mean(s))) <= Times(|s| - Copies(s, v), Variance(s))
  {
    hide Square, Mean, Variance, Copies, Beyond, Times;
    var (j, k) := (Copies(s, v), Beyond(s, v, Mean(s)));
    CopiesAreBeyond(s, v, Mean(s));
    BeyondNearMean(s, v);
    VarianceTimes(s);
    TimesMonotone(j, k, Square(v - Mean(s)));
    TimesMonotone(|s| - k, |s| - j, Variance(s));
  }

  lemma BestShift(variance: real, d: real, t: real, k: nat, n: nat)
    requires k < n && t == -Times(k, d) / (n - k) as real
    requires Gap(Times(n, variance), 0.0, d, t, k, n - k)
    ensures Times(k, Square(d)) <= Times(n - k, variance)
  {
    hide Square, Product, Times;
    ShiftMeets(k, n - k, d, t);
    assert Times(n, variance) - Times(k, Square(d)) + Product(Times(k, d), t) >= 0.0;
    FromGap(k, n - k, variance, d, t);
  }

  lemma ShiftMeets(k: nat, rest: nat, d: real, t: real)
    requires rest > 0 && t == -Times(k, d) / rest as real
    ensures Times(rest, t) == -Times(k, d)
    ensures Times(rest, Square(t)) == -Product(Times(k, d), t)
    ensures Times(k, Square(d) - 2.0 * Product(t, d)) == Times(k, Square(d)) - 2.0 * Product(Times(k, d), t)
    ensures Product(t, 0.0) == 0.0
  {
    var (a, r, kd) := (k as real, rest as real, Times(k, d));
    TimesQuotient(rest, -kd);
    assert r * t == -kd;
    assert r * (t * t) == (r * t) * t;
    assert a * (t * d) == (a * d) * t;
    assert a * (Square(d) - 2.0 * (t * d)) == a * Square(d) - 2.0 * (a * (t * d));
  }

  lemma FromGap(k: nat, rest: nat, v: real, d: real, t: real)
    requires rest > 0 && Times(rest, t) == -Times(k, d)
    requires Times(k + rest, v) - Times(k, Square(d)) + Product(Times(k, d), t) >= 0.0
    ensures Times(k, Square(d)) <= Times(rest, v)
  {
    var (a, r) := (k as real, rest as real);
    assert (k + rest) as real == a + r;
    assert a * Square(d) == (a * d) * d;
    ScaleGap(a, r, v, d, t);
  }

  lemma ScaleGap(a: real, r: real, v: real, d: real, t: real)
    requires a >= 0.0 && r > 0.0 && r * t == -(a * d)
    requires (a + r) * v - (a * d) * d + (a * d) * t >= 0.0
    ensures (a * d) * d <= r * v
  {
    ScaleUp(r, 0.0, (a + r) * v - (a * d) * d + (a * d) * t);
    Collect(a, r, v, d, t);
    CancelFactor(a + r, (a * d) * d, r * v);
  }

  lemma Collect(a: real, r: real, v: real, d: real, t: real)
    requires r * t == -(a * d)
    ensures r * ((a + r) * v - (a * d) * d + (a * d) * t) == (a + r) * (r * v) - (a + r) * ((a * d) * d)
  {
    var kd := a * d;
    assert r * (kd * t) == kd * (r * t) == -(kd * kd);
    assert kd * kd == a * (d * kd) == a * (kd * d);
    assert r * ((a + r) * v) == (a + r) * (r * v);
    assert r * ((a + r) * v - kd * d + kd * t) == r * ((a + r) * v) - r * (kd * d) + r * (kd * t);
    assert (a + r) * (kd * d) == a * (kd * d) + r * (kd * d);
  }

  /** A sample with k of the n samples of the window at it or beyond it is not flagged at threshold t
      when n - k <= k * t * t. */
  lemma BeyondNotFar(s: seq<real>, v: real, t: real)
    requires s != []
    requires (|s| - Beyond(s, v, Mean(s))) as real <= Times(Beyond(s, v, Mean(s)), Square(t))
    ensures !IsFar(s, v, t)
  {
    hide Square, Times, Product, Variance, Mean, Beyond;
    var k := Beyond(s, v, Mean(s));
    BeyondNearMean(s, v);
    if Variance(s) > 0.0 {
      TooFar(k, |s| - k, Square(v - Mean(s)), Square(t), Variance(s));
    }
  }

  /** In particular one that occurs k times. */
  lemma RepeatedNotFar(s: seq<real>, v: real, t: real)
    requires s != [] && (|s| - Copies(s, v)) as real <= Times(Copies(s, v), Square(t))
    ensures !IsFar(s, v, t)
  {
    hide Square, Mean, Copies, Beyond, IsFar, Times;
    CopiesAreBeyond(s, v, Mean(s));
    TimesMonotone(Copies(s, v), Beyond(s, v, Mean(s)), Square(t));
    BeyondNotFar(s, v, t);
  }

  lemma RepeatedNotFlagged(s: seq<real>, v: real, sd: real, t: real)
    requires s != [] && t >= 0.0 && IsStdDev(sd, Variance(s))
    requires (|s| - Copies(s, v)) as real <= Times(Copies(s, v), Square(t))
    ensures !IsOutlier(v, Mean(s), sd, t)
  {
    hide Times, Variance, Mean, Copies;
    RepeatedNotFar(s, v, t);
    FlaggedIsFar(s, v, sd, t);
  }

  lemma TooFar(k: nat, rest: nat, dd: real, tt: real, variance: real)
    requires variance > 0.0 && k + rest > 0 && rest as real <= Times(k, tt)
    requires Times(k, dd) <= Times(rest, variance)
    ensures dd <= Product(tt, variance)
  {
    var a := k as real;
    ScaleUp(variance, rest as real, a * tt);
    assert variance * (a * tt) == a * (tt * variance);
    CancelFactor(a, dd, tt * variance);
  }

  lemma {:induction false} MemberHasCopy(s: seq<real>, v: real)
    requires v in s
    ensures Copies(s, v) >= 1
  {
    if s[0] != v {
      MemberHasCopy(s[1..], v);
    }
  }

  /** At the threshold of the clock servo none of at most 4 samples is flagged, ... */
  lemma FourNeverFlagged(s: seq<real>, v: real, sd: real)
    requires v in s && |s| <= 4 && IsStdDev(sd, Variance(s))
    ensures !IsOutlier(v, Mean(s), sd, 1.75)
  {
    MemberHasCopy(s, v);
    RepeatedNotFlagged(s, v, sd, 1.75);
  }

  /** ... one of five can be, ... */
  lemma FiveCanFlag()
    ensures var s := [0.0, 0.0, 0.0, 0.0, 1.0];
      IsStdDev(0.4, Variance(s)) && IsOutlier(1.0, Mean(s), 0.4, 1.75)
  {
    var s := [0.0, 0.0, 0.0, 0.0, 1.0];
    assert s[1..] == [0.0, 0.0, 0.0, 1.0] && s[1..][1..] == [0.0, 0.0, 1.0];
    var r := [0.0, 0.0, 1.0];
    assert r[1..] == [0.0, 1.0] && r[1..][1..] == [1.0];
    assert Sum([1.0]) == 1.0;
    assert Sum(r) == 1.0;
    assert Sum(s) == 1.0;
    assert Mean(s) == 0.2;
    assert SumSquares([1.0], 0.2) == 0.64;
    assert SumSquares(r, 0.2) == 0.72;
    assert SumSquares(s, 0.2) == 0.8;
  }

  /** ... and no value with 16 / 65 of the samples at it or beyond it ever is: 13 of a window of 51. */
  lemma EnoughBeyondNotFar(s: seq<real>, v: real)
    requires s != [] && 16 * |s| <= 65 * Beyond(s, v, Mean(s))
    ensures !IsFar(s, v, 1.75)
  {
    hide Beyond, Mean, IsFar;
    BeyondNotFar(s, v, 1.75);
  }

  lemma ThirteenNotFar(s: seq<real>, v: real)
    requires |s| <= 51 && Copies(s, v) >= 13
    ensures !IsFar(s, v, 1.75)
  {
    hide Beyond, Copies, Mean, IsFar;
    CopiesAreBeyond(s, v, Mean(s));
    EnoughBeyondNotFar(s, v);
  }

  // ----- the bound is sharp -----

  function Repeated(x: real, n: nat): (s: seq<real>)
    ensures |s| == n && forall i :: 0 <= i < n ==> s[i] == x
  {
    seq(n, _ => x)
  }

  lemma {:induction false} SumOfRepeated(x: real, n: nat, c: real)
    ensures Sum(Repeated(x, n)) == Times(n, x) && SumSquares(Repeated(x, n), c) == Times(n, Square(x - c))
    ensures Beyond(Repeated(x, n), 1.0, c) == if IsBeyond(x, 1.0, c) then n else 0
  {
    hide Times, Square;
    TimesZero(x);
    TimesZero(Square(x - c));
    if n > 0 {
      assert Repeated(x, n)[1..] == Repeated(x, n - 1);
      SumOfRepeated(x, n - 1, c);
      TimesNext(n - 1, x);
      TimesNext(n - 1, Square(x - c));
    }
  }

  lemma {:induction false} SumsAppend(s: seq<real>, r: seq<real>, c: real)
    ensures Sum(s + r) == Sum(s) + Sum(r) && SumSquares(s + r, c) == SumSquares(s, c) + SumSquares(r, c)
    ensures Beyond(s + r, 1.0, c) == Beyond(s, 1.0, c) + Beyond(r, 1.0, c)
  {
    hide Square;
    if s == [] {
      assert s + r == r;
    } else {
      SumsAppend(s[1..], r, c);
      assert (s + r)[1..] == s[1..] + r;
    }
  }

  /** As soon as n - k > k * t * t there is a window of n samples that flags a value with k of them at
      it or beyond it: k ones among zeros. */
  lemma BoundIsSharp(k: nat, rest: nat, t: real)
    requires k > 0 && rest as real > Times(k, Square(t))
    ensures var s := Repeated(0.0, rest) + Repeated(1.0, k);
      |s| == k + rest && Beyond(s, 1.0, Mean(s)) == k && IsFar(s, 1.0, t)
  {
    hide SumSquares, Sum, Beyond, Mean, Variance, Product;
    var s := Repeated(0.0, rest) + Repeated(1.0, k);
    var m := Mean(s);
    SumOfRepeated(0.0, rest, m);
    SumOfRepeated(1.0, k, m);
    SumsAppend(Repeated(0.0, rest), Repeated(1.0, k), m);
    MeanTimes(s);
    VarianceTimes(s);
    ScaleUp(k as real, 0.0, Square(t));
    assert Times(k, Square(t)) >= 0.0;
    OnesAmongZeros(k, rest, m, Variance(s), Square(t));
  }

  /** With m the mean of ones among zeros, the variance is m * (1 - m). */
  lemma OnesAmongZeros(k: nat, rest: nat, m: real, variance: real, tt: real)
    requires k > 0 && rest as real > Times(k, tt) && Times(k, tt) >= 0.0
    requires Times(k + rest, m) == Times(rest, 0.0) + Times(k, 1.0)
    requires Times(k + rest, variance) == Times(rest, Square(0.0 - m)) + Times(k, Square(1.0 - m))
    ensures 0.0 < m < 1.0 && variance > 0.0 && Square(1.0 - m) > Product(tt, variance)
  {
    var (a, r, n) := (k as real, rest as real, (k + rest) as real);
    var u := 1.0 - m;
    assert n == a + r && n * m == a && n * u == r;
    Positive(n, m);
    Positive(n, u);
    TwoPointVariance(a, r, n, m, u, variance);
    CancelFactor(n, variance, m * u);
    CancelFactor(n, m * u, variance);
    ProductPositive(m, u);
    SlopeBelow(a, r, n, m, u, tt);
    ScaleUpStrict(u, tt * m, u);
    assert u * (tt * m) == tt * (m * u);
  }

  lemma Positive(n: real, x: real)
    requires n > 0.0 && n * x > 0.0
    ensures x > 0.0
  {
    if x <= 0.0 {
      ScaleUp(n, x, 0.0);
    }
  }

  lemma ProductPositive(x: real, y: real)
    requires x > 0.0 && y > 0.0
    ensures x * y > 0.0
  {
  }

  lemma TwoPointVariance(a: real, r: real, n: real, m: real, u: real, variance: real)
    requires n * m == a && n * u == r && m + u == 1.0
    requires n * variance == r * Square(0.0 - m) + a * Square(u)
    ensures n * variance == n * (m * u)
  {
    assert Square(0.0 - m) == m * m;
    assert r * (m * m) == n * (u * (m * m)) == n * ((m * u) * m);
    assert a * (u * u) == n * (m * (u * u)) == n * ((m * u) * u);
    assert n * ((m * u) * m) + n * ((m * u) * u) == n * ((m * u) * (m + u));
  }

  lemma SlopeBelow(a: real, r: real, n: real, m: real, u: real, tt: real)
    requires n > 0.0 && n * m == a && n * u == r && r > a * tt
    ensures tt * m < u
  {
    assert n * (tt * m) == (n * m) * tt;
    if tt * m >= u {
      ScaleUp(n, u, tt * m);
    }
  }

  lemma ScaleUpStrict(n: real, x: real, y: real)
    requires n > 0.0 && x < y
    ensures n * x < n * y
  {
  }

  // ----- the extremes -----

  function Least(s: seq<real>): real {
    if s == [] then 0.0 else if |s| == 1 then s[0] else Min(Least(s[..|s| - 1]), s[|s| - 1])
  }

  function Greatest(s: seq<real>): real {
    if s == [] then 0.0 else if |s| == 1 then s[0] else Max(Greatest(s[..|s| - 1]), s[|s| - 1])
  }

  lemma {:induction false} ExtremesBound(s: seq<real>)
    requires s != []
    ensures Least(s) in s && Greatest(s) in s
    ensures forall i :: 0 <= i < |s| ==> Least(s) <= s[i] <= Greatest(s)
  {
    var n := |s|;
    if n > 1 {
      ExtremesBound(s[..n - 1]);
      assert s == s[..n - 1] + [s[n - 1]];
    }
  }

  lemma {:induction false} SumBounds(s: seq<real>, lo: real, hi: real)
    requires forall i :: 0 <= i < |s| ==> lo <= s[i] <= hi
    ensures Times(|s|, lo) <= Sum(s) <= Times(|s|, hi)
  {
    hide Times;
    TimesZero(lo);
    TimesZero(hi);
    if s != [] {
      SumBounds(s[1..], lo, hi);
      TimesNext(|s[1..]|, lo);
      TimesNext(|s[1..]|, hi);
    }
  }

  lemma MeanBetweenExtremes(s: seq<real>)
    requires s != []
    ensures Least(s) <= Mean(s) <= Greatest(s)
  {
    hide Least, Greatest, Mean, Sum;
    ExtremesBound(s);
    SumBounds(s, Least(s), Greatest(s));
    MeanTimes(s);
    CancelFactor(|s| as real, Least(s), Mean(s));
    CancelFactor(|s| as real, Mean(s), Greatest(s));
  }

  lemma MedianBetweenExtremes(s: seq<real>)
    requires s != []
    ensures Least(s) <= Median(s) <= Greatest(s)
  {
    hide Least, Greatest, Sorted, MedianOfSorted;
    SortedKeeps(s, 0.0);
    MedianOfSortedMinimises(Sorted(s), 0.0);
    SortedWithin(s, Least(s), Greatest(s));
  }

  lemma SortedWithin(s: seq<real>, lo: real, hi: real)
    requires s != [] && lo == Least(s) && hi == Greatest(s) && |Sorted(s)| == |s|
    ensures lo <= Sorted(s)[0] && Sorted(s)[|s| - 1] <= hi
  {
    hide Least, Greatest, Sorted;
    ExtremesBound(s);
    SortedKeeps(s, 0.0);
    var r := Sorted(s);
    assert r[0] in multiset(s) && r[|s| - 1] in multiset(s);
  }

  function PeakDeviation(s: seq<real>): real {
    Max(Abs(Mean(s) - Least(s)), Abs(Mean(s) - Greatest(s)))
  }

  /** The peak deviation is the largest distance of a sample from the mean. */
  lemma PeakDeviationIsLargest(s: seq<real>)
    requires s != []
    ensures forall i :: 0 <= i < |s| ==> Abs(s[i] - Mean(s)) <= PeakDeviation(s)
    ensures exists i :: 0 <= i < |s| && Abs(s[i] - Mean(s)) == PeakDeviation(s)
  {
    ExtremesBound(s);
    var i :| 0 <= i < |s| && s[i] == Least(s);
    var j :| 0 <= j < |s| && s[j] == Greatest(s);
    assert Abs(s[i] - Mean(s)) == PeakDeviation(s) || Abs(s[j] - Mean(s)) == PeakDeviation(s);
  }

  lemma {:induction false} SquaresBelow(s: seq<real>, c: real, p: real)
    requires forall i :: 0 <= i < |s| ==> Abs(s[i] - c) <= p
    ensures SumSquares(s, c) <= Times(|s|, Square(p))
  {
    hide Times, Square;
    TimesZero(Square(p));
    if s != [] {
      SquaresBelow(s[1..], c, p);
      SquareMonotone(s[0] - c, p);
      TimesNext(|s[1..]|, Square(p));
    }
  }

  /** No standard deviation exceeds the peak deviation. */
  lemma VarianceBelowPeak(s: seq<real>)
    requires s != []
    ensures Variance(s) <= Square(PeakDeviation(s))
  {
    hide Variance, Mean, PeakDeviation, Square, SumSquares;
    PeakDeviationIsLargest(s);
    SquaresBelow(s, Mean(s), PeakDeviation(s));
    VarianceTimes(s);
    CancelFactor(|s| as real, Variance(s), Square(PeakDeviation(s)));
  }

  // ----- the window -----

  /** A full ring buffer drops its oldest element to take a new one. */
  function Push(window: seq<real>, x: real, capacity: nat): (w: seq<real>)
    ensures |window| <= capacity ==> |w| <= capacity
  {
    if capacity == 0 then window
    else if |window| < capacity then window + [x]
    else window[|window| - capacity + 1..] + [x]
  }

  function Pushes(xs: seq<real>, capacity: nat): seq<real> {
    if xs == [] then [] else Push(Pushes(xs[..|xs| - 1], capacity), xs[|xs| - 1], capacity)
  }

  function Last(xs: seq<real>, n: nat): seq<real> {
    xs[if |xs| <= n then 0 else |xs| - n..]
  }

  /** After any run of additions the window holds the last values, as many as fit. */
  lemma {:induction false} WindowIsSuffix(xs: seq<real>, capacity: nat)
    ensures Pushes(xs, capacity) == Last(xs, capacity)
  {
    if xs != [] {
      var n := |xs| - 1;
      WindowIsSuffix(xs[..n], capacity);
      assert xs == xs[..n] + [xs[n]];
      PushLast(xs[..n], xs[n], capacity);
    }
  }

  lemma PushLast(xs: seq<real>, x: real, capacity: nat)
    ensures Push(Last(xs, capacity), x, capacity) == Last(xs + [x], capacity)
  {
  }

  lemma {:induction false} SumSnoc(s: seq<real>, x: real)
    ensures Sum(s + [x]) == Sum(s) + x
  {
    if s == [] {
      assert [] + [x] == [x];
    } else {
      SumSnoc(s[1..], x);
      assert (s + [x])[1..] == s[1..] + [x];
    }
  }

  lemma {:induction false} SumSquaresSnoc(s: seq<real>, x: real, c: real)
    ensures SumSquares(s + [x], c) == SumSquares(s, c) + Square(x - c)
  {
    if s == [] {
      assert [] + [x] == [x];
    } else {
      SumSquaresSnoc(s[1..], x, c);
      assert (s + [x])[1..] == s[1..] + [x];
    }
  }

  lemma NoMedian()
    ensures Median([]) == 0.0
  {
  }

  lemma MedianIsMiddle(s: seq<real>)
    requires s != []
    ensures Sorted(s) != [] && Median(s) == MedianOfSorted(Sorted(s))
  {
    SortedKeeps(s, 0.0);
  }

  /** `Sorted` stands for std::sort; by SortedUnique it does not matter how it sorts. */
  class SlidingStats {
    const capacity: nat
    var window: seq<real>
    var sortedData: seq<real>
    var mean: real
    var median: real
    var min: real
    var max: real

    /** The stored statistics are those of the window. */
    predicate Valid()
      reads this
    {
      |window| <= capacity && mean == Mean(window) && median == Median(window) &&
      min == Least(window) && max == Greatest(window)
    }

    constructor (size: nat)
      ensures Valid() && capacity == size && window == []
    {
      capacity := size;
      window, sortedData := [], [];
      mean, median, min, max := 0.0, 0.0, 0.0, 0.0;
    }

    method Add(value: real)
      requires Valid()
      modifies this
      ensures Valid() && window == Push(old(window), value, capacity)
    {
      window := Push(window, value, capacity);
      Recalculate();
    }

    method Recalculate()
      requires |window| <= capacity
      modifies this
      ensures Valid() && window == old(window)
    {
      hide Sorted, MedianOfSorted, Median;
      if window == [] {
        NoMedian();
        mean, median, min, max := 0.0, 0.0, 0.0, 0.0;
        return;
      }
      min, max := window[0], window[0];
      var sum := 0.0;
      sortedData := [];
      var i := 0;
      while i < |window|
        invariant 0 <= i <= |window| && window == old(window)
        invariant sum == Sum(window[..i]) && sortedData == window[..i]
        invariant i == 0 ==> min == max == window[0]
        invariant i > 0 ==> min == Least(window[..i]) && max == Greatest(window[..i])
      {
        var e := window[i];
        assert window[..i + 1] == window[..i] + [e];
        SumSnoc(window[..i], e);
        assert window[..i + 1][..i] == window[..i];
        sum := sum + e;
        sortedData := sortedData + [e];
        min := Min(min, e);
        max := Max(max, e);
        i := i + 1;
      }
      assert window[..i] == window;
      mean := sum / |window| as real;
      MedianIsMiddle(window);
      sortedData := Sorted(sortedData);
      median := MedianOfSorted(sortedData);
    }

    method GetVariance() returns (variance: real)
      requires Valid()
      ensures variance == Variance(window)
    {
      hide Mean, Median, Least, Greatest, Product;
      if window == [] {
        return 0.0;
      }
      variance := 0.0;
      var i := 0;
      while i < |window|
        invariant 0 <= i <= |window| && variance == SumSquares(window[..i], mean)
      {
        var v := window[i];
        assert window[..i + 1] == window[..i] + [v];
        SumSquaresSnoc(window[..i], v, mean);
        variance := variance + Square(v - mean);
        i := i + 1;
      }
      assert window[..i] == window;
      variance := variance / |window| as real;
    }

    /** `stddev` is what the square root function returns for the variance. */
    method IsOutlierZscore(value: real, threshold: real, stddev: real) returns (r: bool)
      requires Valid() && IsStdDev(stddev, Variance(window))
      ensures r == IsOutlier(value, Mean(window), stddev, threshold)
    {
      if Abs(stddev - 0.0) <= 0.0 {
        return false;
      }
      return Abs((value - mean) / stddev) > threshold;
    }

    method PeakDeviationFromMean() returns (r: real)
      requires Valid() && window != []
      ensures forall i :: 0 <= i < |window| ==> Abs(window[i] - Mean(window)) <= r
      ensures exists i :: 0 <= i < |window| && Abs(window[i] - Mean(window)) == r
    {
      PeakDeviationIsLargest(window);
      r := Max(Abs(mean - min), Abs(mean - max));
    }

    method Reset()
      requires Valid()
      modifies this
      ensures Valid() && window == []
    {
      window, sortedData := [], [];
      mean, median, min, max := 0.0, 0.0, 0.0, 0.0;
    }
  }
}
