/**
 * Order statistics of the benchmark: bench/metrics.ts and `aggregateStats` of
 * bench/runner-core.ts, over the real numbers. The square root is a parameter.
 */
module LatencyStats {
  import opened Outcome

  // ------------------------------------------------------------------- sorting

  ghost predicate Sorted(s: seq<real>) {
    forall i, j :: 0 <= i <= j < |s| ==> s[i] <= s[j]
  }

  function Insert(x: real, s: seq<real>): (r: seq<real>)
    ensures |r| == |s| + 1
  {
    if s == [] || x <= s[0] then [x] + s else [s[0]] + Insert(x, s[1..])
  }

  function Sort(s: seq<real>): (r: seq<real>)
    ensures |r| == |s|
  {
    if s == [] then [] else Insert(s[0], Sort(s[1..]))
  }

  lemma {:induction false} InsertContents(x: real, s: seq<real>)
    ensures multiset(Insert(x, s)) == multiset{x} + multiset(s)
  {
    if s != [] && x > s[0] {
      InsertContents(x, s[1..]);
      assert s == [s[0]] + s[1..];
    }
  }

  lemma {:induction false} InsertSorted(x: real, s: seq<real>)
    requires Sorted(s)
    ensures Sorted(Insert(x, s))
  {
    if s != [] && x > s[0] {
      var tail := Insert(x, s[1..]);
      InsertSorted(x, s[1..]);
      InsertContents(x, s[1..]);
      forall j | 0 <= j < |tail| ensures s[0] <= tail[j] {
        assert tail[j] in multiset(tail);
        assert tail[j] == x || tail[j] in s[1..];
      }
    }
  }

  /** Sorting rearranges the values into ascending order. */
  lemma {:induction false} SortSorts(s: seq<real>)
    ensures Sorted(Sort(s)) && multiset(Sort(s)) == multiset(s)
  {
    if s != [] {
      SortSorts(s[1..]);
      InsertSorted(s[0], Sort(s[1..]));
      InsertContents(s[0], Sort(s[1..]));
      assert s == [s[0]] + s[1..];
    }
  }

  /** The library sort on a buffer. */
  method SortInPlace(a: array<real>)
    modifies a
    ensures a[..] == Sort(old(a[..]))
  {
    var s := Sort(a[..]);
    for i := 0 to a.Length
      invariant a[..i] == s[..i]
    {
      a[i] := s[i];
      assert a[..i + 1] == a[..i] + [s[i]];
    }
    assert a[..] == a[..a.Length] && s == s[..a.Length];
  }

  // --------------------------------------------------------------- percentiles

  /** Linear interpolation at a position of a non-empty sequence. */
  function At(s: seq<real>, x: real): real
    requires s != [] && 0.0 <= x <= (|s| - 1) as real
  {
    var lo := x.Floor;
    if x == lo as real then s[lo]
    else var w := x - lo as real; s[lo] * (1.0 - w) + s[lo + 1] * w
  }

  function Times(a: real, b: real): real {
    a * b
  }

  lemma Scale(a: real, b: real, m: real)
    requires a <= b && 0.0 <= m
    ensures Times(a, m) <= Times(b, m)
  {
  }

  lemma Fraction(f: real, m: real)
    requires 0.0 <= f <= 1.0 && 0.0 <= m
    ensures 0.0 <= Times(f, m) <= m
  {
    Scale(0.0, f, m);
    Scale(f, 1.0, m);
  }

  function Position(n: nat, p: real): (x: real)
    requires n > 0 && 0.0 <= p <= 100.0
    ensures 0.0 <= x <= (n - 1) as real
  {
    hide Times;
    Fraction(p / 100.0, (n - 1) as real);
    Times(p / 100.0, (n - 1) as real)
  }

  function PercentileFromSorted(s: seq<real>, p: real): real
    requires 0.0 <= p <= 100.0
  {
    if s == [] then 0.0 else At(s, Position(|s|, p))
  }

  lemma Weighted(a: real, b: real, w: real)
    ensures a * (1.0 - w) + b * w == a + Times(w, b - a)
  {
  }

  lemma Between(a: real, b: real, w: real)
    requires a <= b && 0.0 <= w <= 1.0
    ensures a <= a * (1.0 - w) + b * w <= b
  {
    hide Times;
    Weighted(a, b, w);
    Fraction(w, b - a);
  }

  lemma Interpolate(a: real, b: real, v: real, w: real)
    requires a <= b && v <= w
    ensures a * (1.0 - v) + b * v <= a * (1.0 - w) + b * w
  {
    hide Times;
    Weighted(a, b, v);
    Weighted(a, b, w);
    Scale(v, w, b - a);
  }

  /** An interpolated value lies between its neighbours. */
  lemma AtBounds(s: seq<real>, x: real)
    requires Sorted(s) && s != [] && 0.0 <= x <= (|s| - 1) as real
    ensures s[x.Floor] <= At(s, x)
    ensures x != x.Floor as real ==> x.Floor + 1 < |s| && At(s, x) <= s[x.Floor + 1]
    ensures x == x.Floor as real ==> At(s, x) == s[x.Floor]
  {
    if x != x.Floor as real { Between(s[x.Floor], s[x.Floor + 1], x - x.Floor as real); }
  }

  lemma AtMonotone(s: seq<real>, x: real, y: real)
    requires Sorted(s) && s != [] && 0.0 <= x <= y <= (|s| - 1) as real
    ensures At(s, x) <= At(s, y)
  {
    AtBounds(s, x);
    AtBounds(s, y);
    var lo, hi := x.Floor, y.Floor;
    if lo == hi {
      if x != lo as real { Interpolate(s[lo], s[lo + 1], x - lo as real, y - lo as real); }
    } else {
      assert lo + 1 <= hi;
    }
  }

  /** A higher percentile of sorted values is no smaller, and all lie within the values. */
  lemma PercentileMonotone(s: seq<real>, p: real, q: real)
    requires Sorted(s) && 0.0 <= p <= q <= 100.0
    ensures PercentileFromSorted(s, p) <= PercentileFromSorted(s, q)
    ensures s != [] ==> s[0] <= PercentileFromSorted(s, p) && PercentileFromSorted(s, q) <= s[|s| - 1]
  {
    hide Times;
    if s != [] {
      var m := (|s| - 1) as real;
      Scale(p / 100.0, q / 100.0, m);
      AtMonotone(s, Position(|s|, p), Position(|s|, q));
      AtMonotone(s, 0.0, Position(|s|, p));
      AtMonotone(s, Position(|s|, q), m);
    }
  }

  /** A percentile that falls on a sample is that sample. */
  lemma PercentileOnSample(s: seq<real>, p: real, k: nat)
    requires k < |s| && 0.0 <= p <= 100.0 && (|s| - 1) as real * p == 100.0 * k as real
    ensures PercentileFromSorted(s, p) == s[k]
  {
    PositionScaled(|s|, p);
    assert Position(|s|, p) == k as real;
  }

  /** Between two samples it divides their distance as the percentile divides the positions. */
  lemma PercentileBetween(s: seq<real>, p: real, k: nat)
    requires k + 1 < |s| && 0.0 <= p <= 100.0
    requires 100.0 * k as real < (|s| - 1) as real * p < 100.0 * (k + 1) as real
    ensures 100.0 * (PercentileFromSorted(s, p) - s[k])
         == ((|s| - 1) as real * p - 100.0 * k as real) * (s[k + 1] - s[k])
  {
    hide Times;
    PositionScaled(|s|, p);
    var x := Position(|s|, p);
    assert x.Floor == k;
    var w := x - k as real;
    Weighted(s[k], s[k + 1], w);
    Scaled(w, s[k + 1] - s[k], (|s| - 1) as real * p - 100.0 * k as real);
  }

  lemma PositionScaled(n: nat, p: real)
    requires n > 0 && 0.0 <= p <= 100.0
    ensures 100.0 * Position(n, p) == (n - 1) as real * p
  {
  }

  lemma Scaled(w: real, d: real, v: real)
    requires 100.0 * w == v
    ensures 100.0 * Times(w, d) == v * d
  {
  }

  // --------------------------------------------------------- one run's statistics

  datatype Stats = Stats(
    count: real, min: real, max: real, mean: real, stddev: real,
    p50: real, p95: real, p99: real, p999: real, opsPerSec: real, cv: real)

  const ZERO: Stats := Stats(0.0, 0.0, 0.0, 0.0, 0.0, 0.0, 0.0, 0.0, 0.0, 0.0, 0.0)

  function Sum(s: seq<real>): real {
    if s == [] then 0.0 else Sum(s[..|s| - 1]) + s[|s| - 1]
  }

  function SquaredDeviations(s: seq<real>, mean: real): real {
    if s == [] then 0.0
    else
      var d := s[|s| - 1] - mean;
      SquaredDeviations(s[..|s| - 1], mean) + d * d
  }

  predicate IsMinimum(s: seq<real>, m: real) {
    m in s && forall i :: 0 <= i < |s| ==> m <= s[i]
  }

  /** The running maximum starts at 0, so it is the larger of 0 and the samples. */
  predicate IsMaximumOrZero(s: seq<real>, m: real) {
    (m in s || m == 0.0) && 0.0 <= m && forall i :: 0 <= i < |s| ==> s[i] <= m
  }

  lemma RangeStep(s: seq<real>, x: real, low: Option<real>, high: real)
    requires low.None? <==> s == []
    requires (low.Some? ==> IsMinimum(s, low.value)) && IsMaximumOrZero(s, high)
    ensures IsMinimum(s + [x], if low.None? || x < low.value then x else low.value)
    ensures IsMaximumOrZero(s + [x], if x > high then x else high)
  {
  }

  method RangeAndSum(samples: array<real>) returns (min: real, max: real, sum: real)
    requires samples.Length > 0
    ensures IsMinimum(samples[..], min) && IsMaximumOrZero(samples[..], max) && sum == Sum(samples[..])
  {
    var s := samples[..];
    var low: Option<real> := None;  // None is positive infinity
    assert IsMaximumOrZero(s[..0], 0.0);
    hide IsMinimum, IsMaximumOrZero;
    max, sum := 0.0, 0.0;
    for i := 0 to samples.Length
      invariant i == 0 <==> low.None?
      invariant low.Some? ==> IsMinimum(s[..i], low.value)
      invariant IsMaximumOrZero(s[..i], max)
      invariant sum == Sum(s[..i])
    {
      var x := samples[i];
      var t := s[..i + 1];
      assert t == s[..i] + [x] && t[..i] == s[..i] && t[i] == x;
      RangeStep(s[..i], x, low, max);
      if low.None? || x < low.value { low := Some(x); }
      if x > max { max := x; }
      sum := sum + x;
    }
    assert s[..samples.Length] == s;
    min := low.value;
  }

  method SumOfSquares(samples: array<real>, mean: real) returns (acc: real)
    ensures acc == SquaredDeviations(samples[..], mean)
  {
    var s := samples[..];
    acc := 0.0;
    for i := 0 to samples.Length
      invariant acc == SquaredDeviations(s[..i], mean)
    {
      var d := samples[i] - mean;
      assert s[..i + 1][..i] == s[..i] && s[..i + 1][i] == samples[i];
      acc := acc + d * d;
    }
    assert s[..samples.Length] == s;
  }

  /** `sqrt` stands for `Math.sqrt`. */
  method ComputeLatencyStats(sqrt: real -> real, samples: array<real>, elapsedNs: real) returns (r: Stats)
    ensures samples.Length == 0 ==> r == ZERO
    ensures samples.Length > 0 ==>
      var s := samples[..];
      var n := samples.Length as real;
      && r.count == n && IsMinimum(s, r.min) && IsMaximumOrZero(s, r.max)
      && r.mean == Sum(s) / n
      && r.stddev == sqrt(SquaredDeviations(s, r.mean)
                          / if samples.Length <= 2 then 1.0 else (samples.Length - 1) as real)
      && r.p50 == PercentileFromSorted(Sort(s), 50.0) && r.p95 == PercentileFromSorted(Sort(s), 95.0)
      && r.p99 == PercentileFromSorted(Sort(s), 99.0) && r.p999 == PercentileFromSorted(Sort(s), 99.9)
      && r.opsPerSec == (if elapsedNs > 0.0 then n * 1000000000.0 / elapsedNs else 0.0)
      && r.cv == (if r.mean > 0.0 then r.stddev / r.mean else 0.0)
    ensures Ordered(r)
  {
    hide Sort, PercentileFromSorted, Sum, SquaredDeviations, IsMinimum, IsMaximumOrZero;
    var n := samples.Length as real;
    if samples.Length == 0 { return ZERO; }
    var min, max, sum := RangeAndSum(samples);
    var mean := sum / n;
    var variance := SumOfSquares(samples, mean);
    var stddev := sqrt(variance / Divisor(n));
    var sorted := new real[samples.Length](i requires 0 <= i < samples.Length reads samples => samples[i]);
    assert sorted[..] == samples[..];
    SortInPlace(sorted);
    r := Stats(
      n, min, max, mean, stddev,
      PercentileFromSorted(sorted[..], 50.0), PercentileFromSorted(sorted[..], 95.0),
      PercentileFromSorted(sorted[..], 99.0), PercentileFromSorted(sorted[..], 99.9),
      if elapsedNs > 0.0 then n * 1000000000.0 / elapsedNs else 0.0,
      if mean > 0.0 then stddev / mean else 0.0);
    RunOrdered(samples[..], r);
  }

  function Divisor(n: real): (d: real)
    ensures d >= 1.0
  {
    if n - 1.0 > 1.0 then n - 1.0 else 1.0
  }

  /** The statistics of a run in the order they must come in, the mean within the range. */
  predicate Ordered(r: Stats) {
    r.min <= r.p50 <= r.p95 <= r.p99 <= r.p999 <= r.max && r.min <= r.mean <= r.max
  }

  lemma {:induction false} SumBounds(s: seq<real>, lo: real, hi: real)
    requires forall i :: 0 <= i < |s| ==> lo <= s[i] <= hi
    ensures Times(|s| as real, lo) <= Sum(s) <= Times(|s| as real, hi)
  {
    if s != [] {
      SumBounds(s[..|s| - 1], lo, hi);
      assert |s| as real == (|s| - 1) as real + 1.0;
      assert Times(|s| as real, lo) == Times((|s| - 1) as real, lo) + lo;
      assert Times(|s| as real, hi) == Times((|s| - 1) as real, hi) + hi;
    }
  }

  lemma Quotient(x: real, n: real, lo: real, hi: real)
    requires n > 0.0 && Times(n, lo) <= x <= Times(n, hi)
    ensures lo <= x / n <= hi
  {
  }

  /** Every run's statistics are in order, whatever the sign of its samples. */
  lemma RunOrdered(s: seq<real>, r: Stats)
    requires s != [] && IsMinimum(s, r.min) && IsMaximumOrZero(s, r.max) && r.mean == Sum(s) / (|s| as real)
    requires r.p50 == PercentileFromSorted(Sort(s), 50.0) && r.p95 == PercentileFromSorted(Sort(s), 95.0)
    requires r.p99 == PercentileFromSorted(Sort(s), 99.0) && r.p999 == PercentileFromSorted(Sort(s), 99.9)
    ensures Ordered(r)
  {
    hide PercentileFromSorted, Times, Sum;
    var t := Sort(s);
    SortSorts(s);
    assert t[0] in multiset(t) && t[|t| - 1] in multiset(t);
    assert t[0] in s && t[|t| - 1] in s;
    PercentileMonotone(t, 50.0, 95.0);
    PercentileMonotone(t, 95.0, 99.0);
    PercentileMonotone(t, 99.0, 99.9);
    SumBounds(s, r.min, r.max);
    Quotient(Sum(s), |s| as real, r.min, r.max);
  }

  /** The reported maximum is the true one exactly when some sample is not negative. */
  lemma MaximumIff(s: seq<real>, m: real)
    requires s != [] && IsMaximumOrZero(s, m)
    ensures (m in s && forall i :: 0 <= i < |s| ==> s[i] <= m) <==> exists i :: 0 <= i < |s| && s[i] >= 0.0
  {
    if exists i :: 0 <= i < |s| && s[i] >= 0.0 {
      var i :| 0 <= i < |s| && s[i] >= 0.0;
      if m == 0.0 { assert s[i] == m; }
    }
    if m in s {
      var i :| 0 <= i < |s| && s[i] == m;
      assert s[i] >= 0.0;
    }
  }

  // ------------------------------------------------------- median and aggregation

  function Median(values: seq<real>): real {
    if values == [] then 0.0
    else
      var sorted := Sort(values);
      var mid := |sorted| / 2;
      if |sorted| % 2 == 0 then (sorted[mid - 1] + sorted[mid]) / 2.0 else sorted[mid]
  }

  lemma {:induction false} SortedUnique(a: seq<real>, b: seq<real>)
    requires Sorted(a) && Sorted(b) && multiset(a) == multiset(b)
    ensures a == b
  {
    hide Sorted;
    SameSize(a, b);
    if a != [] {
      SameLeast(a, b);
      Tail(a);
      Tail(b);
      SameRest(a, b);
      SortedUnique(a[1..], b[1..]);
      assert a == [a[0]] + a[1..] && b == [b[0]] + b[1..];
    }
  }

  lemma SameSize(a: seq<real>, b: seq<real>)
    requires multiset(a) == multiset(b)
    ensures |a| == |b|
  {
    assert |multiset(a)| == |a| && |multiset(b)| == |b|;
  }

  lemma SameRest(a: seq<real>, b: seq<real>)
    requires multiset(a) == multiset(b) && a != [] && b != [] && a[0] == b[0]
    ensures multiset(a[1..]) == multiset(b[1..])
  {
    assert a == [a[0]] + a[1..] && b == [b[0]] + b[1..];
    assert multiset(a[1..]) == multiset(a) - multiset{a[0]};
    assert multiset(b[1..]) == multiset(b) - multiset{b[0]};
  }

  lemma SameLeast(a: seq<real>, b: seq<real>)
    requires Sorted(a) && Sorted(b) && multiset(a) == multiset(b) && a != [] && b != []
    ensures a[0] == b[0]
  {
    assert a[0] in multiset(b) && b[0] in multiset(a);
    var i :| 0 <= i < |b| && b[i] == a[0];
    var j :| 0 <= j < |a| && a[j] == b[0];
    assert a[0] <= a[j] && b[0] <= b[i];
  }

  lemma Tail(s: seq<real>)
    requires Sorted(s) && s != []
    ensures Sorted(s[1..])
  {
  }

  /** The median is the middle value in ascending order, or halfway between the two middle ones. */
  lemma MedianIsMiddle(values: seq<real>, ascending: seq<real>)
    requires values != [] && Sorted(ascending) && multiset(ascending) == multiset(values)
    ensures |ascending| == |values|
    ensures var n := |values|;
            if n % 2 == 1 then Median(values) == ascending[(n - 1) / 2]
            else Median(values) * 2.0 == ascending[n / 2 - 1] + ascending[n / 2]
  {
    SortSorts(values);
    SortedUnique(ascending, Sort(values));
  }

  ghost predicate Below(a: seq<real>, b: seq<real>) {
    |a| == |b| && forall i :: 0 <= i < |a| ==> a[i] <= b[i]
  }

  lemma {:induction false} InsertBelow(x: real, a: seq<real>, y: real, b: seq<real>)
    requires Sorted(a) && Sorted(b) && Below(a, b) && x <= y
    ensures Below(Insert(x, a), Insert(y, b))
    decreases |a|
  {
    if a != [] {
      var a', b' := a[1..], b[1..];
      if x <= a[0] && y > b[0] {
        InsertBelow(a[0], a', y, b');
        assert Insert(a[0], a') == a;
      } else if x > a[0] && y <= b[0] {
        InsertBelow(x, a', b[0], b');
        assert Insert(b[0], b') == b;
      } else if x > a[0] && y > b[0] {
        InsertBelow(x, a', y, b');
      }
    }
  }

  /** Pointwise dominance carries over to the sorted sequences. */
  lemma {:induction false} SortBelow(a: seq<real>, b: seq<real>)
    requires Below(a, b)
    ensures Below(Sort(a), Sort(b))
  {
    if a != [] {
      SortBelow(a[1..], b[1..]);
      SortSorts(a[1..]);
      SortSorts(b[1..]);
      InsertBelow(a[0], Sort(a[1..]), b[0], Sort(b[1..]));
    }
  }

  lemma MedianMonotone(a: seq<real>, b: seq<real>)
    requires Below(a, b)
    ensures Median(a) <= Median(b)
  {
    hide Sort;
    SortBelow(a, b);
  }

  function Round(x: real): int {
    (x + 0.5).Floor
  }

  function Column(runs: seq<Stats>, f: Stats -> real): (c: seq<real>)
    ensures |c| == |runs| && forall i :: 0 <= i < |runs| ==> c[i] == f(runs[i])
  {
    seq(|runs|, i requires 0 <= i < |runs| => f(runs[i]))
  }

  function AggregateStats(runs: seq<Stats>): Stats {
    Stats(
      Round(Median(Column(runs, (r: Stats) => r.count))) as real,
      Median(Column(runs, (r: Stats) => r.min)),
      Median(Column(runs, (r: Stats) => r.max)),
      Median(Column(runs, (r: Stats) => r.mean)),
      Median(Column(runs, (r: Stats) => r.stddev)),
      Median(Column(runs, (r: Stats) => r.p50)),
      Median(Column(runs, (r: Stats) => r.p95)),
      Median(Column(runs, (r: Stats) => r.p99)),
      Median(Column(runs, (r: Stats) => r.p999)),
      Median(Column(runs, (r: Stats) => r.opsPerSec)),
      Median(Column(runs, (r: Stats) => r.cv)))
  }

  /** Rounding goes to the nearest integer, up when two are equally near. */
  lemma RoundNearest(x: real)
    ensures x - 0.5 < Round(x) as real <= x + 0.5
  {
  }

  lemma {:induction false} MedianOfEqual(n: nat, x: real)
    requires n > 0
    ensures Median(seq(n, i => x)) == x
  {
    var s := seq(n, i => x);
    assert Sorted(s);
    MedianIsMiddle(s, s);
  }

  /** Runs that agree are aggregated to what they agree on, each statistic to itself. */
  lemma AggregateOfEqual(n: nat, r: Stats)
    requires n > 0 && r.count == r.count.Floor as real
    ensures AggregateStats(seq(n, i => r)) == r
  {
    hide Median;
    var runs := seq(n, i => r);
    SameColumn(n, r, (r: Stats) => r.count);
    SameColumn(n, r, (r: Stats) => r.min);
    SameColumn(n, r, (r: Stats) => r.max);
    SameColumn(n, r, (r: Stats) => r.mean);
    SameColumn(n, r, (r: Stats) => r.stddev);
    SameColumn(n, r, (r: Stats) => r.p50);
    SameColumn(n, r, (r: Stats) => r.p95);
    SameColumn(n, r, (r: Stats) => r.p99);
    SameColumn(n, r, (r: Stats) => r.p999);
    SameColumn(n, r, (r: Stats) => r.opsPerSec);
    SameColumn(n, r, (r: Stats) => r.cv);
    assert Round(r.count) == r.count.Floor;
  }

  lemma SameColumn(n: nat, r: Stats, f: Stats -> real)
    requires n > 0
    ensures Median(Column(seq(n, i => r), f)) == f(r)
  {
    assert Column(seq(n, i => r), f) == seq(n, i => f(r));
    MedianOfEqual(n, f(r));
  }

  lemma ColumnMedians(runs: seq<Stats>, f: Stats -> real, g: Stats -> real)
    requires forall i :: 0 <= i < |runs| ==> f(runs[i]) <= g(runs[i])
    ensures Median(Column(runs, f)) <= Median(Column(runs, g))
  {
    MedianMonotone(Column(runs, f), Column(runs, g));
  }

  /** Taking the median of each statistic over any number of runs keeps them in order. */
  lemma AggregateOrdered(runs: seq<Stats>)
    requires forall i :: 0 <= i < |runs| ==> Ordered(runs[i])
    ensures Ordered(AggregateStats(runs))
  {
    hide Median, Column;
    ColumnMedians(runs, (r: Stats) => r.min, (r: Stats) => r.p50);
    ColumnMedians(runs, (r: Stats) => r.p50, (r: Stats) => r.p95);
    ColumnMedians(runs, (r: Stats) => r.p95, (r: Stats) => r.p99);
    ColumnMedians(runs, (r: Stats) => r.p99, (r: Stats) => r.p999);
    ColumnMedians(runs, (r: Stats) => r.p999, (r: Stats) => r.max);
    ColumnMedians(runs, (r: Stats) => r.min, (r: Stats) => r.mean);
    ColumnMedians(runs, (r: Stats) => r.mean, (r: Stats) => r.max);
  }
}
