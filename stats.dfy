/** The statistics kernel shared by the dataset scans and the item analytics
  * (`_quantile` and `_stats`, written twice in the source with the same code). */
module Stats {
  import opened Wrappers

  predicate IsSorted(s: seq<real>) {
    forall i, j :: 0 <= i < j < |s| ==> s[i] <= s[j]
  }

  /** Inserts `x` before the first element not smaller than it. */
  function InsertAscending(x: real, s: seq<real>): (r: seq<real>)
    ensures |r| == |s| + 1 && multiset(r) == multiset(s) + multiset{x}
  {
    if s == [] || x <= s[0] then [x] + s
    else
      assert s == [s[0]] + s[1..];
      [s[0]] + InsertAscending(x, s[1..])
  }

  /** Inserting into an ascending sequence keeps it ascending. */
  lemma {:induction false} InsertAscendingSorted(x: real, s: seq<real>)
    requires IsSorted(s)
    ensures IsSorted(InsertAscending(x, s))
    ensures InsertAscending(x, s)[0] == (if s != [] && s[0] < x then s[0] else x)
  {
    if s != [] && x > s[0] {
      var rest := InsertAscending(x, s[1..]);
      InsertAscendingSorted(x, s[1..]);
      var r := [s[0]] + rest;
      assert s[0] <= rest[0];
      forall i, j | 0 <= i < j < |r| ensures r[i] <= r[j] {
        if i > 0 {
          assert r[i] == rest[i - 1] && r[j] == rest[j - 1];
        } else {
          assert rest[0] <= rest[j - 1];
        }
      }
    }
  }

  /** Python's `sorted(values)`: the same values in ascending order. */
  function Sort(values: seq<real>): (r: seq<real>)
    ensures |r| == |values| && multiset(r) == multiset(values)
    ensures IsSorted(r)
  {
    if values == [] then []
    else
      assert values == [values[0]] + values[1..];
      InsertAscendingSorted(values[0], Sort(values[1..]));
      InsertAscending(values[0], Sort(values[1..]))
  }

  function Sum(s: seq<real>): real {
    if s == [] then 0.0 else Sum(s[..|s| - 1]) + s[|s| - 1]
  }

  /** `statistics.mean`, exact. */
  function Mean(s: seq<real>): real
    requires s != []
  {
    Sum(s) / |s| as real
  }

  /** Sum of squared deviations from `mu`. */
  function SquaredDeviations(s: seq<real>, mu: real): (r: real)
    ensures r >= 0.0
  {
    if s == [] then 0.0
    else
      var d := s[|s| - 1] - mu;
      SquareNonNegative(d);
      SquaredDeviations(s[..|s| - 1], mu) + d * d
  }

  lemma SquareNonNegative(d: real)
    ensures d * d >= 0.0
  {
    if d < 0.0 {
      assert d * d == (-d) * (-d);
    }
  }

  /** The population variance: the square of what `statistics.pstdev` returns. */
  function PopVariance(s: seq<real>): (r: real)
    requires s != []
    ensures r >= 0.0
  {
    SquaredDeviations(s, Mean(s)) / |s| as real
  }

  /** `statistics.median` of an ascending sequence: the middle value, or the mean of the two
    * middle values when the length is even. */
  function Median(v: seq<real>): real
    requires v != []
  {
    var n := |v|;
    if n % 2 == 1 then v[n / 2] else (v[n / 2 - 1] + v[n / 2]) / 2.0
  }

  /** The linear interpolation `_quantile` performs at position `pos` of an ascending sequence:
    * `v[lo] * (1 - frac) + v[hi] * frac` with `lo = int(pos)` and `hi = min(lo + 1, n - 1)`. */
  function Interpolate(v: seq<real>, pos: real): real
    requires v != [] && 0.0 <= pos <= (|v| - 1) as real
  {
    var lo := pos.Floor;
    var hi := if lo + 1 < |v| - 1 then lo + 1 else |v| - 1;
    var frac := pos - lo as real;
    v[lo] * (1.0 - frac) + v[hi] * frac
  }

  /** `_quantile(sorted_vals, q)`: `None` for an empty list, the first value for `q <= 0`,
    * the last for `q >= 1`, and otherwise the interpolation at `(n - 1) * q`. */
  function Quantile(v: seq<real>, q: real): (r: Option<real>)
    ensures r.None? <==> v == []
    ensures v != [] && IsSorted(v) ==> v[0] <= r.value <= v[|v| - 1]
    ensures v != [] && q <= 0.0 ==> r == Some(v[0])
    ensures v != [] && q >= 1.0 ==> r == Some(v[|v| - 1])
  {
    if v == [] then None
    else if q <= 0.0 then
      Some(v[0])
    else if q >= 1.0 then
      Some(v[|v| - 1])
    else
      var pos := Position(|v|, q);
      PositionInRange(|v|, q);
      InterpolateBoundsWhenSorted(v, pos);
      Some(Interpolate(v, pos))
  }

  /** The fractional index `(n - 1) * q` that `_quantile` interpolates at. */
  function Position(n: nat, q: real): real {
    (n - 1) as real * q
  }

  lemma PositionInRange(n: nat, q: real)
    requires n >= 1 && 0.0 < q < 1.0
    ensures 0.0 <= Position(n, q) <= (n - 1) as real
  {
  }

  /** With `d >= 0` and `0 <= f <= 1`, `d * f` lies in `[0, d]`. */
  lemma ScaledBetween(d: real, f: real)
    requires d >= 0.0 && 0.0 <= f <= 1.0
    ensures 0.0 <= d * f <= d
  {
  }

  lemma LerpForm(a: real, b: real, f: real)
    ensures a * (1.0 - f) + b * f == a + (b - a) * f
  {
  }

  /** A linear interpolation between `a <= b` stays within `[a, b]`. */
  lemma LerpBetween(a: real, b: real, f: real)
    requires a <= b && 0.0 <= f <= 1.0
    ensures a <= a * (1.0 - f) + b * f <= b
  {
    var d := b - a;
    LerpForm(a, b, f);
    ScaledBetween(d, f);
    var t := d * f;
    assert 0.0 <= t <= d;
    assert a * (1.0 - f) + b * f == a + t;
  }

  lemma PositionsOrdered(n: nat, q1: real, q2: real)
    requires n >= 1 && q1 <= q2
    ensures Position(n, q1) <= Position(n, q2)
  {
    var m := (n - 1) as real;
    assert m * q2 - m * q1 == m * (q2 - q1);
    assert m * (q2 - q1) >= 0.0;
  }

  lemma ScaledMonotone(d: real, f: real, g: real)
    requires d >= 0.0 && f <= g
    ensures d * f <= d * g
  {
    assert d * g - d * f == d * (g - f);
  }

  /** The interpolation lies between its two neighbouring values. */
  lemma InterpolateBounds(v: seq<real>, pos: real)
    requires IsSorted(v) && v != [] && 0.0 <= pos <= (|v| - 1) as real
    ensures var lo := pos.Floor;
            var hi := if lo + 1 < |v| - 1 then lo + 1 else |v| - 1;
            v[lo] <= Interpolate(v, pos) <= v[hi]
    ensures v[0] <= Interpolate(v, pos) <= v[|v| - 1]
  {
    var lo := pos.Floor;
    var hi := if lo + 1 < |v| - 1 then lo + 1 else |v| - 1;
    var frac := pos - lo as real;
    assert 0.0 <= frac < 1.0;
    assert 0 <= lo <= hi < |v|;
    assert v[0] <= v[lo] <= v[hi] <= v[|v| - 1];
    LerpBetween(v[lo], v[hi], frac);
    assert Interpolate(v, pos) == v[lo] * (1.0 - frac) + v[hi] * frac;
  }

  lemma InterpolateBoundsWhenSorted(v: seq<real>, pos: real)
    requires v != [] && 0.0 <= pos <= (|v| - 1) as real
    ensures IsSorted(v) ==> v[0] <= Interpolate(v, pos) <= v[|v| - 1]
  {
    if IsSorted(v) {
      InterpolateBounds(v, pos);
    }
  }

  /** Moving the position right never lowers the interpolated value. */
  lemma {:induction false} InterpolateMonotone(v: seq<real>, p1: real, p2: real)
    requires IsSorted(v) && v != [] && 0.0 <= p1 <= p2 <= (|v| - 1) as real
    ensures Interpolate(v, p1) <= Interpolate(v, p2)
  {
    var lo1, lo2 := p1.Floor, p2.Floor;
    var hi1 := if lo1 + 1 < |v| - 1 then lo1 + 1 else |v| - 1;
    InterpolateBounds(v, p1);
    InterpolateBounds(v, p2);
    if lo1 == lo2 {
      var f1, f2 := p1 - lo1 as real, p2 - lo2 as real;
      LerpForm(v[lo1], v[hi1], f1);
      LerpForm(v[lo1], v[hi1], f2);
      assert Interpolate(v, p1) == v[lo1] + (v[hi1] - v[lo1]) * f1;
      assert Interpolate(v, p2) == v[lo1] + (v[hi1] - v[lo1]) * f2;
      ScaledMonotone(v[hi1] - v[lo1], f1, f2);
    } else {
      assert hi1 <= lo2;
    }
  }

  /** Inside `(0, 1)`, `_quantile` is the interpolation at `(n - 1) * q`, and on sorted
    * input it lies between `sorted_vals[lo]` and `sorted_vals[hi]`. */
  lemma QuantileInside(v: seq<real>, q: real)
    requires v != [] && 0.0 < q < 1.0
    ensures 0.0 <= Position(|v|, q) <= (|v| - 1) as real
    ensures Quantile(v, q) == Some(Interpolate(v, Position(|v|, q)))
    ensures var lo := Position(|v|, q).Floor;
            var hi := if lo + 1 < |v| - 1 then lo + 1 else |v| - 1;
            IsSorted(v) ==> 0 <= lo <= hi < |v| && v[lo] <= Quantile(v, q).value <= v[hi]
  {
    PositionInRange(|v|, q);
    if IsSorted(v) {
      InterpolateBounds(v, Position(|v|, q));
    }
  }

  /** `_quantile` never decreases as `q` grows. */
  lemma QuantileMonotone(v: seq<real>, q1: real, q2: real)
    requires IsSorted(v) && v != [] && q1 <= q2
    ensures Quantile(v, q1).value <= Quantile(v, q2).value
  {
    if q1 <= 0.0 || q2 >= 1.0 {
    } else {
      PositionsOrdered(|v|, q1, q2);
      var p1, p2 := Position(|v|, q1), Position(|v|, q2);
      QuantileInside(v, q1);
      QuantileInside(v, q2);
      InterpolateMonotone(v, p1, p2);
    }
  }

  /** `statistics.median` of an ascending list is its 0.5-quantile under `_quantile`. */
  lemma MedianIsHalfQuantile(v: seq<real>)
    requires v != []
    ensures Quantile(v, 0.5) == Some(Median(v))
  {
    var n := |v|;
    var pos := Position(n, 0.5);
    if n % 2 == 1 {
      var k := n / 2;
      assert pos == k as real;
      assert pos.Floor == k;
    } else {
      var k := n / 2;
      assert pos == (k - 1) as real + 0.5;
      assert pos.Floor == k - 1;
      assert k < n - 1 || k == n - 1;
      var hi := if k < n - 1 then k else n - 1;
      assert hi == k;
      assert Interpolate(v, pos) == v[k - 1] * 0.5 + v[k] * 0.5;
    }
  }

  /** Every element of a sequence within `[lo, hi]` puts its sum within `[n * lo, n * hi]`. */
  lemma {:induction false} SumBounds(s: seq<real>, lo: real, hi: real)
    requires forall i :: 0 <= i < |s| ==> lo <= s[i] <= hi
    ensures |s| as real * lo <= Sum(s) <= |s| as real * hi
  {
    if s != [] {
      SumBounds(s[..|s| - 1], lo, hi);
      assert |s| as real * lo == (|s| - 1) as real * lo + lo;
      assert |s| as real * hi == (|s| - 1) as real * hi + hi;
    }
  }

  /** The mean lies between the smallest and the largest value. */
  lemma MeanBounds(s: seq<real>, lo: real, hi: real)
    requires s != [] && forall i :: 0 <= i < |s| ==> lo <= s[i] <= hi
    ensures lo <= Mean(s) <= hi
  {
    SumBounds(s, lo, hi);
    var n := |s| as real;
    assert Mean(s) * n == Sum(s);
    if Mean(s) < lo {
      ScaledMonotone(n, Mean(s), lo);
    }
    if Mean(s) > hi {
      ScaledMonotone(n, hi, Mean(s));
    }
  }

  /** The `{count, min, max, avg, median, std, q1, q3, iqr}` record of `_stats`; the spread is
    * kept as the population variance (`std` squared). */
  datatype StatsRecord = StatsRecord(
    count: nat,
    min: Option<real>,
    max: Option<real>,
    avg: Option<real>,
    median: Option<real>,
    variance: Option<real>,
    q1: Option<real>,
    q3: Option<real>,
    iqr: Option<real>)

  /** `_stats(values)`: all fields `None` (count 0) for no values; otherwise the ordered
    * summary of the values, with spread 0 for a single value. */
  function Stats(values: seq<real>): (r: StatsRecord)
    ensures values == [] ==> r == StatsRecord(0, None, None, None, None, None, None, None, None)
    ensures values != [] ==>
      && r.count == |values|
      && r.min.Some? && r.max.Some? && r.avg.Some? && r.median.Some?
      && r.variance.Some? && r.q1.Some? && r.q3.Some? && r.iqr.Some?
      && r.min.value in values && r.max.value in values
      && (forall i :: 0 <= i < |values| ==> r.min.value <= values[i] <= r.max.value)
      && r.min.value <= r.q1.value <= r.median.value <= r.q3.value <= r.max.value
      && r.min.value <= r.avg.value <= r.max.value
      && r.iqr.value == r.q3.value - r.q1.value >= 0.0
      && r.variance.value >= 0.0
      && (|values| == 1 ==> r.variance.value == 0.0)
  {
    if values == [] then StatsRecord(0, None, None, None, None, None, None, None, None)
    else
      var vals := Sort(values);
      var n := |vals|;
      var q1 := Quantile(vals, 0.25);
      var q3 := Quantile(vals, 0.75);
      StatsFacts(values, vals);
      StatsRecord(
        n,
        Some(vals[0]),
        Some(vals[n - 1]),
        Some(Mean(vals)),
        Some(Median(vals)),
        Some(if n >= 2 then PopVariance(vals) else 0.0),
        q1,
        q3,
        Some(q3.value - q1.value))
  }

  /** The first and last values of an ascending permutation are the extremes of the input. */
  lemma SortedExtremes(values: seq<real>, vals: seq<real>)
    requires vals != [] && IsSorted(vals) && multiset(vals) == multiset(values)
    ensures vals[0] in values && vals[|vals| - 1] in values
    ensures forall i :: 0 <= i < |values| ==> vals[0] <= values[i] <= vals[|vals| - 1]
  {
    var n := |vals|;
    assert vals[0] in multiset(values) by {
      assert vals[0] in multiset(vals);
    }
    assert vals[n - 1] in multiset(values) by {
      assert vals[n - 1] in multiset(vals);
    }
    forall i | 0 <= i < |values| ensures vals[0] <= values[i] <= vals[n - 1] {
      assert values[i] in multiset(vals);
      var j :| 0 <= j < n && vals[j] == values[i];
    }
  }

  /** Quartiles and median of an ascending sequence come in order. */
  lemma QuartilesOrdered(vals: seq<real>)
    requires vals != [] && IsSorted(vals)
    ensures vals[0] <= Quantile(vals, 0.25).value <= Median(vals)
    ensures Median(vals) <= Quantile(vals, 0.75).value <= vals[|vals| - 1]
  {
    MedianIsHalfQuantile(vals);
    QuantileMonotone(vals, 0.25, 0.5);
    QuantileMonotone(vals, 0.5, 0.75);
  }

  lemma SortedMeanBounds(vals: seq<real>)
    requires vals != [] && IsSorted(vals)
    ensures vals[0] <= Mean(vals) <= vals[|vals| - 1]
  {
    MeanBounds(vals, vals[0], vals[|vals| - 1]);
  }

  /** The facts `Stats` promises, about the sorted copy `vals` of `values`. */
  lemma StatsFacts(values: seq<real>, vals: seq<real>)
    requires values != [] && vals == Sort(values)
    ensures vals[0] in values && vals[|vals| - 1] in values
    ensures forall i :: 0 <= i < |values| ==> vals[0] <= values[i] <= vals[|vals| - 1]
    ensures vals[0] <= Quantile(vals, 0.25).value <= Median(vals)
    ensures Median(vals) <= Quantile(vals, 0.75).value <= vals[|vals| - 1]
    ensures vals[0] <= Mean(vals) <= vals[|vals| - 1]
  {
    SortedExtremes(values, vals);
    QuartilesOrdered(vals);
    SortedMeanBounds(vals);
  }
}
