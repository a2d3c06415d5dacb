/** Equal-width histograms: the bin arithmetic shared by `_histogram` (analytics) and
  * `buildHistogramBins` (dataset page), and the Python method itself. */
module Histogram {
  import opened Wrappers
  import Stats

  /** Python's `min(values)`. */
  function Min(s: seq<real>): (m: real)
    requires s != []
    ensures m in s && forall i :: 0 <= i < |s| ==> m <= s[i]
  {
    if |s| == 1 then s[0]
    else
      var m' := Min(s[..|s| - 1]);
      if s[|s| - 1] < m' then s[|s| - 1] else m'
  }

  /** Python's `max(values)`. */
  function Max(s: seq<real>): (m: real)
    requires s != []
    ensures m in s && forall i :: 0 <= i < |s| ==> s[i] <= m
  {
    if |s| == 1 then s[0]
    else
      var m' := Max(s[..|s| - 1]);
      if s[|s| - 1] > m' then s[|s| - 1] else m'
  }

  /** On sorted values the quantile at 0 is `min` and the one at 1 is `max`. */
  lemma QuantileEnds(v: seq<real>)
    requires v != [] && Stats.IsSorted(v)
    ensures Stats.Quantile(v, 0.0) == Some(Min(v))
    ensures Stats.Quantile(v, 1.0) == Some(Max(v))
  {
    var i :| 0 <= i < |v| && v[i] == Min(v);
    var j :| 0 <= j < |v| && v[j] == Max(v);
    assert v[0] <= v[i] && v[j] <= v[|v| - 1];
  }

  /** Python's `int(x)`: truncation toward zero. */
  function Trunc(x: real): (k: int)
    ensures x >= 0.0 ==> k == x.Floor
    ensures x < 0.0 ==> k == -((-x).Floor)
  {
    if x >= 0.0 then x.Floor else -((-x).Floor)
  }

  /** The two clamping steps: an index past the end goes to the last bin, then a negative
    * index goes to bin 0. */
  function Clamp(idx: int, bins: int): (k: int)
    ensures bins >= 1 ==> 0 <= k < bins
    ensures bins >= 1 && 0 <= idx < bins ==> k == idx
  {
    var k := if idx >= bins then bins - 1 else idx;
    if k < 0 then 0 else k
  }

  /** The bin a value is counted in: `floor((v - mn) / step)`, clamped. */
  function BinIndex(v: real, mn: real, step: real, bins: int): int
    requires step > 0.0
  {
    Clamp(((v - mn) / step).Floor, bins)
  }

  /** The number of values whose bin is `i`. */
  function Hits(values: seq<real>, mn: real, step: real, bins: int, i: int): (n: nat)
    requires step > 0.0
    ensures n <= |values|
  {
    if values == [] then 0
    else
      var last := values[|values| - 1];
      Hits(values[..|values| - 1], mn, step, bins, i) + (if BinIndex(last, mn, step, bins) == i then 1 else 0)
  }

  /** The per-bin counts of a histogram with `bins` bins of width `step` from `mn`. */
  function BinCounts(values: seq<real>, mn: real, step: real, bins: nat): (r: seq<nat>)
    requires step > 0.0
    ensures |r| == bins && forall i :: 0 <= i < bins ==> r[i] == Hits(values, mn, step, bins, i)
  {
    seq(bins, i requires 0 <= i < bins => Hits(values, mn, step, bins, i))
  }

  function Total(counts: seq<nat>): nat {
    if counts == [] then 0 else counts[0] + Total(counts[1..])
  }

  /** Adding one to an entry adds one to the total. */
  lemma {:induction false} TotalBump(c: seq<nat>, k: nat)
    requires k < |c|
    ensures Total(c[k := c[k] + 1]) == Total(c) + 1
  {
    if k > 0 {
      assert c[k := c[k] + 1][1..] == c[1..][k - 1 := c[k] + 1];
      TotalBump(c[1..], k - 1);
    } else {
      assert c[k := c[k] + 1][1..] == c[1..];
    }
  }

  /** Counting one more value bumps exactly the bin it falls in. */
  lemma BinCountsAppend(values: seq<real>, v: real, mn: real, step: real, bins: nat)
    requires step > 0.0 && bins >= 1
    ensures var k := BinIndex(v, mn, step, bins);
            0 <= k < bins &&
            BinCounts(values + [v], mn, step, bins) == BinCounts(values, mn, step, bins)[k := Hits(values, mn, step, bins, k) + 1]
  {
    assert (values + [v])[..|values|] == values;
  }

  /** With every index clamped into range, the counts sum to the number of values. */
  lemma {:induction false} BinCountsTotal(values: seq<real>, mn: real, step: real, bins: nat)
    requires step > 0.0 && bins >= 1
    ensures Total(BinCounts(values, mn, step, bins)) == |values|
  {
    if values == [] {
      var c := BinCounts(values, mn, step, bins);
      ZeroTotal(c);
    } else {
      var init := values[..|values| - 1];
      var v := values[|values| - 1];
      assert values == init + [v];
      BinCountsTotal(init, mn, step, bins);
      BinCountsAppend(init, v, mn, step, bins);
      TotalBump(BinCounts(init, mn, step, bins), BinIndex(v, mn, step, bins));
    }
  }

  lemma {:induction false} ZeroTotal(c: seq<nat>)
    requires forall i :: 0 <= i < |c| ==> c[i] == 0
    ensures Total(c) == 0
  {
    if c != [] {
      ZeroTotal(c[1..]);
    }
  }

  /** The left edge of bin `i`: `mn + i * step`. */
  function Edge(mn: real, step: real, i: int): real {
    mn + i as real * step
  }

  /** The width that splits `[mn, mx]` into `bins` equal bins. */
  function Width(mn: real, mx: real, bins: nat): (step: real)
    requires mn < mx && bins >= 1
    ensures step > 0.0
  {
    (mx - mn) / bins as real
  }

  /** The last edge is the maximum. */
  lemma LastEdge(mn: real, mx: real, bins: nat)
    requires mn < mx && bins >= 1
    ensures Edge(mn, Width(mn, mx, bins), bins) == mx
  {
  }

  /** The maximum always lands in the last bin. */
  lemma MaxInLastBin(mn: real, mx: real, bins: nat)
    requires mn < mx && bins >= 1
    ensures BinIndex(mx, mn, Width(mn, mx, bins), bins) == bins - 1
  {
    var step := Width(mn, mx, bins);
    assert (mx - mn) / step == bins as real;
  }

  /** Every value of `[mn, mx]` lies between the edges of the bin it is counted in. */
  lemma ValueInItsBin(v: real, mn: real, mx: real, bins: nat)
    requires mn <= v <= mx && mn < mx && bins >= 1
    ensures var step := Width(mn, mx, bins);
            var k := BinIndex(v, mn, step, bins);
            Edge(mn, step, k) <= v <= Edge(mn, step, k + 1)
  {
    var step := Width(mn, mx, bins);
    var x := (v - mn) / step;
    var f := x.Floor;
    var k := BinIndex(v, mn, step, bins);
    assert x * step == v - mn;
    assert bins as real * step == mx - mn;
    assert 0.0 <= x by {
      if x < 0.0 {
        MulLess(step, x, 0.0);
      }
    }
    assert x <= bins as real by {
      if x > bins as real {
        MulLess(step, bins as real, x);
      }
    }
    if f >= bins {
      assert k == bins - 1 && x == bins as real;
      LastEdge(mn, mx, bins);
      MulLe(step, (bins - 1) as real, x);
    } else {
      assert k == f && f as real <= x < f as real + 1.0;
      MulLe(step, f as real, x);
      var up := (f + 1) as real;
      MulLe(step, x, up);
      var top := up * step;
      assert x * step <= top;
      assert Edge(mn, step, k + 1) == mn + top;
    }
  }

  lemma MulLe(d: real, a: real, b: real)
    requires d >= 0.0 && a <= b
    ensures a * d <= b * d
  {
    assert b * d - a * d == (b - a) * d;
  }

  lemma MulLess(d: real, a: real, b: real)
    requires d > 0.0 && a < b
    ensures a * d < b * d
  {
    assert b * d - a * d == (b - a) * d;
  }

  /** One `{"from", "to", "count"}` entry of `_histogram`. */
  datatype Bin = Bin(from: real, to: real, count: nat)

  function Counts(bs: seq<Bin>): (r: seq<nat>)
    ensures |r| == |bs| && forall i :: 0 <= i < |bs| ==> r[i] == bs[i].count
  {
    seq(|bs|, i requires 0 <= i < |bs| => bs[i].count)
  }

  /** The bins `_histogram(values, bins)` answers, as a value: no bins for no values, one bin
    * `[v, v]` when all values equal `v`, a division by zero for `bins == 0`, an empty counts list
    * indexed for `bins < 0`, and otherwise `bins` equal-width bins with their counts. */
  function HistogramOf(values: seq<real>, bins: int): (r: Result<seq<Bin>>)
    ensures r.Failure? <==> values != [] && Min(values) < Max(values) && bins <= 0
    ensures r.Success? ==> (|r.value| == 0 <==> values == [])
  {
    if values == [] then Success([])
    else
      var mn, mx := Min(values), Max(values);
      if mn == mx then Success([Bin(mn, mx, |values|)])
      else if bins == 0 then Failure(ZeroDivisionError)
      else if bins < 0 then Failure(IndexError)
      else
        var step := Width(mn, mx, bins);
        var counts := BinCounts(values, mn, step, bins);
        Success(seq(bins, k requires 0 <= k < bins => Bin(Edge(mn, step, k), Edge(mn, step, k + 1), counts[k])))
  }

  /** Whenever `_histogram` answers, its counts add up to the number of values. */
  lemma HistogramOfTotal(values: seq<real>, bins: int)
    requires HistogramOf(values, bins).Success?
    ensures Total(Counts(HistogramOf(values, bins).value)) == |values|
  {
    var out := HistogramOf(values, bins).value;
    if values != [] {
      var mn, mx := Min(values), Max(values);
      if mn == mx {
        assert Counts(out) == [|values|];
        assert Total(Counts(out)) == |values| + Total([]);
      } else {
        HistogramFacts(values, mn, mx, bins, Width(mn, mx, bins), out);
      }
    }
  }

  /** `_histogram(values, bins)`.
    * No values: no bins. All values equal: one bin `[v, v]` holding them all. Otherwise
    * `bins` bins of width `(max - min) / bins`, each counting the values whose clamped index
    * is its own; `bins == 0` divides by zero and `bins < 0` indexes an empty list. */
  method PyHistogram(values: seq<real>, bins: int) returns (r: Result<seq<Bin>>)
    ensures r == HistogramOf(values, bins)
    ensures values == [] ==> r == Success([])
    ensures values != [] && Min(values) == Max(values) ==>
      r == Success([Bin(Min(values), Max(values), |values|)])
    ensures values != [] && Min(values) < Max(values) && bins == 0 ==>
      r == Failure(ZeroDivisionError)
    ensures values != [] && Min(values) < Max(values) && bins < 0 ==>
      r == Failure(IndexError)
    ensures values != [] && Min(values) < Max(values) && bins > 0 ==>
      var mn, mx := Min(values), Max(values);
      var step := Width(mn, mx, bins);
      && r.Success? && |r.value| == bins
      && Counts(r.value) == BinCounts(values, mn, step, bins)
      && Total(Counts(r.value)) == |values|
      && r.value[0].from == mn && r.value[bins - 1].to == mx
      && (forall i :: 0 <= i < bins ==> r.value[i].from == Edge(mn, step, i) && r.value[i].to == Edge(mn, step, i + 1))
      && (forall i :: 0 <= i < bins - 1 ==> r.value[i].to == r.value[i + 1].from)
  {
    if values == [] {
      return Success([]);
    }
    var mn := Min(values);
    var mx := Max(values);
    if mn == mx {
      return Success([Bin(mn, mx, |values|)]);
    }
    if bins == 0 {
      return Failure(ZeroDivisionError);
    }
    var step := (mx - mn) / bins as real;
    if step <= 0.0 {
      step := 1.0;
    }
    assert bins > 0 ==> step == Width(mn, mx, bins);
    var counted := CountBins(values, mn, step, bins);
    if counted.Failure? {
      return Failure(counted.error);
    }
    assert bins > 0;
    var out := Bins(mn, step, counted.value);
    HistogramFacts(values, mn, mx, bins, step, out);
    assert out == HistogramOf(values, bins).value;
    return Success(out);
  }

  /** The counting loop of `_histogram`: `counts = [0] * bins`, then `counts[idx] += 1` for
    * each value's truncated, clamped index. With `bins < 0` the list is empty and the first
    * increment fails. */
  method CountBins(values: seq<real>, mn: real, step: real, bins: int) returns (r: Result<seq<nat>>)
    requires step > 0.0 && forall i :: 0 <= i < |values| ==> mn <= values[i]
    ensures bins > 0 ==> r == Success(BinCounts(values, mn, step, bins))
    ensures bins <= 0 && values != [] ==> r == Failure(IndexError)
  {
    var counts := new nat[if bins > 0 then bins else 0](_ => 0);
    var j := 0;
    while j < |values|
      invariant 0 <= j <= |values|
      invariant bins <= 0 ==> j == 0
      invariant bins > 0 ==> counts.Length == bins && counts[..] == BinCounts(values[..j], mn, step, bins)
    {
      var idx := Trunc((values[j] - mn) / step);
      if idx >= bins {
        idx := bins - 1;
      }
      if idx < 0 {
        idx := 0;
      }
      if idx >= counts.Length {
        return Failure(IndexError);
      }
      BinCountsAppend(values[..j], values[j], mn, step, bins);
      assert values[..j + 1] == values[..j] + [values[j]];
      counts[idx] := counts[idx] + 1;
      j := j + 1;
    }
    assert values[..j] == values;
    if bins > 0 {
      return Success(counts[..]);
    }
    return Success([]);
  }

  /** The output loop of `_histogram`: bin `i` spans `[mn + i * step, mn + (i + 1) * step]`. */
  method Bins(mn: real, step: real, counts: seq<nat>) returns (out: seq<Bin>)
    ensures |out| == |counts|
    ensures forall k :: 0 <= k < |out| ==> out[k] == Bin(Edge(mn, step, k), Edge(mn, step, k + 1), counts[k])
  {
    out := [];
    var i := 0;
    while i < |counts|
      invariant 0 <= i <= |counts| && |out| == i
      invariant forall k :: 0 <= k < i ==> out[k] == Bin(Edge(mn, step, k), Edge(mn, step, k + 1), counts[k])
    {
      out := out + [Bin(mn + i as real * step, mn + (i + 1) as real * step, counts[i])];
      i := i + 1;
    }
  }

  /** The facts `PyHistogram` promises about the bins built from the counts. */
  lemma HistogramFacts(values: seq<real>, mn: real, mx: real, bins: nat, step: real, out: seq<Bin>)
    requires mn < mx && bins >= 1 && step == Width(mn, mx, bins)
    requires |out| == bins
    requires forall k :: 0 <= k < bins ==>
      out[k] == Bin(Edge(mn, step, k), Edge(mn, step, k + 1), BinCounts(values, mn, step, bins)[k])
    ensures Counts(out) == BinCounts(values, mn, step, bins)
    ensures Total(Counts(out)) == |values|
    ensures out[0].from == mn && out[bins - 1].to == mx
    ensures forall i :: 0 <= i < bins ==> out[i].from == Edge(mn, step, i) && out[i].to == Edge(mn, step, i + 1)
    ensures forall i :: 0 <= i < bins - 1 ==> out[i].to == out[i + 1].from
  {
    var c := BinCounts(values, mn, step, bins);
    forall k | 0 <= k < bins
      ensures Counts(out)[k] == c[k]
      ensures out[k].from == Edge(mn, step, k) && out[k].to == Edge(mn, step, k + 1)
    {
      var b := out[k];
      assert b == Bin(Edge(mn, step, k), Edge(mn, step, k + 1), c[k]);
    }
    assert Counts(out) == c;
    assert Edge(mn, step, 0) == mn;
    BinCountsTotal(values, mn, step, bins);
    LastEdge(mn, mx, bins);
  }
}
