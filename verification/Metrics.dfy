/** Metric preprocessing over the reals: summary statistics, nearest-rank percentile, spike signals. */
module Metrics {

  predicate Ascending(s: seq<real>) {
    forall i, j :: 0 <= i < j < |s| ==> s[i] <= s[j]
  }

  /** Where a value belongs among ascending ones. */
  function Place(x: real, s: seq<real>): (k: nat)
    requires Ascending(s)
    ensures k <= |s|
    ensures forall i :: 0 <= i < k ==> s[i] < x
    ensures forall i :: k <= i < |s| ==> x <= s[i]
  {
    if s == [] then 0
    else if s[|s| - 1] < x then |s|
    else Place(x, s[..|s| - 1])
  }

  function Insert(x: real, s: seq<real>): (r: seq<real>)
    requires Ascending(s)
    ensures Ascending(r) && |r| == |s| + 1
    ensures multiset(r) == multiset(s) + multiset{x}
  {
    var k := Place(x, s);
    assert s == s[..k] + s[k..];
    s[..k] + [x] + s[k..]
  }

  /** sort.Float64s on a copy. */
  function Sort(s: seq<real>): (r: seq<real>)
    ensures Ascending(r) && |r| == |s| && multiset(r) == multiset(s)
  {
    if s == [] then []
    else
      assert s == s[..|s| - 1] + [s[|s| - 1]];
      Insert(s[|s| - 1], Sort(s[..|s| - 1]))
  }

  function Sum(s: seq<real>): real {
    if s == [] then 0.0 else Sum(s[..|s| - 1]) + s[|s| - 1]
  }

  function CountLe(s: seq<real>, v: real): nat {
    if s == [] then 0 else CountLe(s[..|s| - 1], v) + if s[|s| - 1] <= v then 1 else 0
  }

  function CountGe(s: seq<real>, v: real): nat {
    if s == [] then 0 else CountGe(s[..|s| - 1], v) + if s[|s| - 1] >= v then 1 else 0
  }

  /** math.Ceil. */
  function Ceil(x: real): (n: int)
    ensures n as real - 1.0 < x <= n as real
  {
    -((-x).Floor)
  }

  /** The index a percentile reads. */
  function Rank(n: nat, p: real): (i: nat)
    requires n > 0
    ensures i < n
  {
    var index := Ceil(p * n as real) - 1;
    if index < 0 then 0 else if index >= n then n - 1 else index
  }

  method Percentile(sorted: seq<real>, p: real) returns (v: real)
    ensures sorted == [] ==> v == 0.0
    ensures sorted != [] ==> v == sorted[Rank(|sorted|, p)]
  {
    if |sorted| == 0 { return 0.0; }
    var index := Ceil(p * |sorted| as real) - 1;
    if index < 0 { index := 0; }
    if index >= |sorted| { index := |sorted| - 1; }
    v := sorted[index];
  }

  datatype Stats = Stats(min: real, max: real, avg: real, p95: real)

  function StatsOf(values: seq<real>): Stats
    requires values != []
  {
    var sorted := Sort(values);
    Stats(sorted[0], sorted[|sorted| - 1], Sum(values) / |values| as real, sorted[Rank(|values|, 0.95)])
  }

  method CalculateStats(values: seq<real>) returns (stats: Stats)
    requires values != []
    ensures stats == StatsOf(values)
  {
    var sorted := Sort(values);
    var sum := 0.0;
    var i := 0;
    while i < |sorted|
      invariant 0 <= i <= |sorted| && sum == Sum(sorted[..i])
    {
      assert sorted[..i + 1][..i] == sorted[..i];
      sum := sum + sorted[i];
      i := i + 1;
    }
    assert sorted[..i] == sorted;
    SortKeepsSum(values);
    var p95 := Percentile(sorted, 0.95);
    stats := Stats(sorted[0], sorted[|sorted| - 1], sum / |sorted| as real, p95);
  }

  // ---------------------------------------------------------------- sorting changes no count and no sum

  lemma {:induction false} SumConcat(a: seq<real>, b: seq<real>)
    ensures Sum(a + b) == Sum(a) + Sum(b)
    decreases |b|
  {
    if b == [] {
      assert a + b == a;
    } else {
      assert (a + b)[..|a + b| - 1] == a + b[..|b| - 1];
      SumConcat(a, b[..|b| - 1]);
    }
  }

  lemma {:induction false} CountConcat(a: seq<real>, b: seq<real>, v: real)
    ensures CountLe(a + b, v) == CountLe(a, v) + CountLe(b, v)
    ensures CountGe(a + b, v) == CountGe(a, v) + CountGe(b, v)
    decreases |b|
  {
    if b == [] {
      assert a + b == a;
    } else {
      assert (a + b)[..|a + b| - 1] == a + b[..|b| - 1];
      CountConcat(a, b[..|b| - 1], v);
    }
  }

  lemma Single(x: real, v: real)
    ensures Sum([x]) == x
    ensures CountLe([x], v) == if x <= v then 1 else 0
    ensures CountGe([x], v) == if x >= v then 1 else 0
  {
    assert [x][..0] == [];
  }

  lemma InsertAdds(x: real, s: seq<real>, v: real)
    requires Ascending(s)
    ensures Sum(Insert(x, s)) == Sum(s) + x
    ensures CountLe(Insert(x, s), v) == CountLe(s, v) + if x <= v then 1 else 0
    ensures CountGe(Insert(x, s), v) == CountGe(s, v) + if x >= v then 1 else 0
  {
    hide Sum, CountLe, CountGe;
    var k := Place(x, s);
    var a, b := s[..k], s[k..];
    assert s == a + b;
    Single(x, v);
    SumConcat(a, b);
    SumConcat(a, [x]);
    SumConcat(a + [x], b);
    CountConcat(a, b, v);
    CountConcat(a, [x], v);
    CountConcat(a + [x], b, v);
  }

  lemma {:induction false} SortKeepsCounts(s: seq<real>, v: real)
    ensures Sum(Sort(s)) == Sum(s) && CountLe(Sort(s), v) == CountLe(s, v) && CountGe(Sort(s), v) == CountGe(s, v)
    decreases |s|
  {
    if s != [] {
      SortKeepsCounts(s[..|s| - 1], v);
      InsertAdds(s[|s| - 1], Sort(s[..|s| - 1]), v);
    }
  }

  lemma SortKeepsSum(s: seq<real>)
    ensures Sum(Sort(s)) == Sum(s)
  {
    SortKeepsCounts(s, 0.0);
  }

  // ---------------------------------------------------------------- nearest rank

  lemma {:induction false} AtLeast(s: seq<real>, k: nat, v: real)
    requires k <= |s|
    ensures (forall i :: 0 <= i < k ==> s[i] <= v) ==> CountLe(s, v) >= k
    ensures (forall i :: k <= i < |s| ==> s[i] >= v) ==> CountGe(s, v) >= |s| - k
    ensures (forall i :: k <= i < |s| ==> s[i] > v) ==> CountLe(s, v) <= k
    decreases |s|
  {
    if s != [] {
      var init := s[..|s| - 1];
      if k < |s| {
        AtLeast(init, k, v);
      } else {
        AtLeast(init, k - 1, v);
      }
    }
  }

  lemma Scale(a: real, b: real, n: real)
    requires n > 0.0
    ensures a < b <==> a * n < b * n
  {
    if a < b { assert (b - a) * n > 0.0; } else { assert (a - b) * n >= 0.0; }
  }

  lemma RankOf(n: nat, p: real)
    requires 0.0 < p <= 1.0 && n > 0
    ensures 1 <= Ceil(p * n as real) <= n && Rank(n, p) == Ceil(p * n as real) - 1
  {
    var x := p * n as real;
    Scale(0.0, p, n as real);
    Scale(1.0, p, n as real);
    assert 1.0 * n as real == n as real && 0.0 * n as real == 0.0;
    CeilAtMost(x, n);
  }

  lemma CeilAtMost(x: real, n: int)
    requires x <= n as real
    ensures Ceil(x) <= n
  {
    assert (Ceil(x) - 1) as real < n as real;
  }

  /** For 0 < p <= 1 the percentile is the least value with at least ceil(p n) values not above it. */
  lemma PercentileIsNearestRank(values: seq<real>, p: real)
    requires values != [] && 0.0 < p <= 1.0
    ensures var n, r, v := |values|, Ceil(p * |values| as real), Sort(values)[Rank(|values|, p)];
            && v in values
            && CountLe(values, v) >= r
            && CountGe(values, v) >= n - r + 1
            && forall w: real :: w < v ==> CountLe(values, w) < r
  {
    RankOf(|values|, p);
    hide Ceil, Rank;
    RankCounts(values, Ceil(p * |values| as real));
  }

  lemma SortedFromValues(values: seq<real>, i: nat)
    requires i < |values|
    ensures Sort(values)[i] in values
  {
    assert Sort(values)[i] in multiset(Sort(values));
  }

  lemma BelowRank(values: seq<real>, r: nat, w: real)
    requires 1 <= r <= |values| && w < Sort(values)[r - 1]
    ensures CountLe(values, w) < r
  {
    hide Sort, CountLe, CountGe;
    SortKeepsCounts(values, w);
    AtLeast(Sort(values), r - 1, w);
  }

  lemma RankCounts(values: seq<real>, r: nat)
    requires 1 <= r <= |values|
    ensures var v := Sort(values)[r - 1];
            && v in values && CountLe(values, v) >= r && CountGe(values, v) >= |values| - r + 1
            && forall w: real :: w < v ==> CountLe(values, w) < r
  {
    hide Sort, CountLe, CountGe;
    var v := Sort(values)[r - 1];
    SortedFromValues(values, r - 1);
    SortKeepsCounts(values, v);
    AtLeast(Sort(values), r, v);
    AtLeast(Sort(values), r - 1, v);
    forall w: real | w < v ensures CountLe(values, w) < r {
      BelowRank(values, r, w);
    }
  }

  lemma RankMonotone(n: nat, p: real, q: real)
    requires n > 0 && p <= q
    ensures Rank(n, p) <= Rank(n, q)
  {
    var x, y := p * n as real, q * n as real;
    Scale(q, p, n as real);
    assert x <= y && y <= Ceil(y) as real;
    CeilAtMost(x, Ceil(y));
  }

  lemma PercentileMonotone(values: seq<real>, p: real, q: real)
    requires values != [] && p <= q
    ensures Sort(values)[Rank(|values|, p)] <= Sort(values)[Rank(|values|, q)]
  {
    RankMonotone(|values|, p, q);
    hide Rank, Sort;
    var i, j := Rank(|values|, p), Rank(|values|, q);
    assert i == j || Sort(values)[i] <= Sort(values)[j];
  }

  lemma {:induction false} SumBounds(s: seq<real>, lo: real, hi: real)
    requires forall i :: 0 <= i < |s| ==> lo <= s[i] <= hi
    ensures lo * |s| as real <= Sum(s) <= hi * |s| as real
    decreases |s|
  {
    if s != [] { SumBounds(s[..|s| - 1], lo, hi); }
  }

  lemma Divide(lo: real, hi: real, sum: real, n: nat)
    requires n > 0 && lo * n as real <= sum <= hi * n as real
    ensures lo <= sum / n as real <= hi
  {
    var q := sum / n as real;
    assert q * n as real == sum;
    Scale(q, lo, n as real);
    Scale(hi, q, n as real);
  }

  lemma SortBounds(values: seq<real>)
    requires values != []
    ensures var s := Sort(values);
            && s[0] in values && s[|s| - 1] in values
            && forall i :: 0 <= i < |values| ==> s[0] <= values[i] <= s[|s| - 1]
  {
    var s := Sort(values);
    hide Sort;
    forall i | 0 <= i < |values| ensures s[0] <= values[i] <= s[|s| - 1] {
      assert values[i] in multiset(values) && values[i] in multiset(s);
      var k :| 0 <= k < |s| && s[k] == values[i];
    }
    assert s[0] in multiset(s) && s[|s| - 1] in multiset(s);
    assert s[0] in multiset(values) && s[|s| - 1] in multiset(values);
  }

  lemma Between(s: seq<real>, i: nat)
    requires Ascending(s) && i < |s|
    ensures s[0] <= s[i] <= s[|s| - 1]
  {
    assert i == 0 || s[0] <= s[i];
    assert i == |s| - 1 || s[i] <= s[|s| - 1];
  }

  lemma AverageBetween(values: seq<real>, lo: real, hi: real)
    requires values != [] && forall i :: 0 <= i < |values| ==> lo <= values[i] <= hi
    ensures lo <= Sum(values) / |values| as real <= hi
  {
    SumBounds(values, lo, hi);
    Divide(lo, hi, Sum(values), |values|);
  }

  /** The statistics are ordered: min <= avg <= max and min <= p95 <= max, with min and max the extremes. */
  lemma StatsAreOrdered(values: seq<real>)
    requires values != []
    ensures var t := StatsOf(values);
            && t.min <= t.avg <= t.max && t.min <= t.p95 <= t.max
            && t.min in values && t.max in values
            && forall i :: 0 <= i < |values| ==> t.min <= values[i] <= t.max
  {
    hide Sort, Sum, Rank;
    SortBounds(values);
    var s := Sort(values);
    AverageBetween(values, s[0], s[|s| - 1]);
    Between(s, Rank(|values|, 0.95));
  }

  lemma AverageTimesCount(sum: real, n: nat)
    requires n > 0
    ensures (sum / n as real) * n as real == sum
  {
  }

  lemma NinetyFive(n: nat, c: int)
    ensures c >= Ceil(0.95 * n as real) <==> 100 * c >= 95 * n
  {
    var x := 0.95 * n as real;
    assert 100.0 * x == 95.0 * n as real == (95 * n) as real;
    if c >= Ceil(x) { assert c as real >= x; } else { assert c as real <= Ceil(x) as real - 1.0 < x; }
    assert 100.0 * c as real == (100 * c) as real;
  }

  /** The average times the count is the sum; 95 of 100 values, and no fewer, are at most the 95th percentile. */
  lemma MeanAndPercentile(values: seq<real>)
    requires values != []
    ensures StatsOf(values).avg * |values| as real == Sum(values)
    ensures var p95 := StatsOf(values).p95;
            && p95 in values && 100 * CountLe(values, p95) >= 95 * |values|
            && forall w: real :: w < p95 ==> 100 * CountLe(values, w) < 95 * |values|
  {
    hide Sort, Sum, Rank, Ceil, CountLe, CountGe;
    AverageTimesCount(Sum(values), |values|);
    PercentileIsNearestRank(values, 0.95);
    var p95 := StatsOf(values).p95;
    NinetyFive(|values|, CountLe(values, p95));
    forall w: real | w < p95 ensures 100 * CountLe(values, w) < 95 * |values| {
      NinetyFive(|values|, CountLe(values, w));
    }
  }

  // ---------------------------------------------------------------- spikes and the series loop

  predicate IsSpike(t: Stats) {
    t.max > t.avg * 2.0 && t.max > 0.0
  }

  /** A spike needs two points, and three when no value is negative. */
  lemma SpikeNeedsPoints(values: seq<real>)
    requires values != [] && IsSpike(StatsOf(values))
    ensures |values| >= 2
    ensures (forall i :: 0 <= i < |values| ==> values[i] >= 0.0) ==> |values| >= 3
  {
    hide Sort, Rank;
    StatsAreOrdered(values);
    if |values| == 1 {
      SumOfOne(values);
    } else if |values| == 2 {
      SumOfTwo(values);
    }
  }

  lemma SumOfOne(values: seq<real>)
    requires |values| == 1
    ensures Sum(values) == values[0]
  {
    assert values[..0] == [];
  }

  lemma SumOfTwo(values: seq<real>)
    requires |values| == 2
    ensures Sum(values) == values[0] + values[1]
  {
    SumOfOne(values[..1]);
  }

  /** Two points spike exactly when they lie on either side of zero. */
  lemma SpikeOfTwoIff(values: seq<real>)
    requires |values| == 2
    ensures IsSpike(StatsOf(values)) <==> StatsOf(values).min < 0.0 < StatsOf(values).max
  {
    hide Sort;
    StatsAreOrdered(values);
    SumOfTwo(values);
    TwoExtremes(values, StatsOf(values).min, StatsOf(values).max);
  }

  lemma TwoExtremes(values: seq<real>, lo: real, hi: real)
    requires |values| == 2 && lo in values && hi in values
    requires forall i :: 0 <= i < |values| ==> lo <= values[i] <= hi
    ensures values[0] + values[1] == lo + hi
  {
  }

  /** For instance: */
  lemma SpikeOfTwo()
    ensures IsSpike(StatsOf([-3.0, 1.0]))
  {
    var v := [-3.0, 1.0];
    StatsAreOrdered(v);
    SpikeOfTwoIff(v);
    assert v[0] >= StatsOf(v).min && v[1] <= StatsOf(v).max;
  }

  datatype Series = Series(name: string, values: seq<real>)

  function NonEmpty(series: seq<Series>): seq<Series> {
    if series == [] then []
    else
      var last := series[|series| - 1];
      NonEmpty(series[..|series| - 1]) + if last.values == [] then [] else [last]
  }

  function SpikeNames(series: seq<Series>): seq<string> {
    if series == [] then []
    else
      var last := series[|series| - 1];
      SpikeNames(series[..|series| - 1]) +
      if last.values != [] && IsSpike(StatsOf(last.values)) then [last.name] else []
  }

  /** For each name, the statistics of the last non-empty series of that name. */
  function StatsByName(series: seq<Series>): map<string, Stats> {
    if series == [] then map[]
    else
      var before, last := StatsByName(series[..|series| - 1]), series[|series| - 1];
      if last.values == [] then before else before[last.name := StatsOf(last.values)]
  }

  /** The series that are kept are those of each part, in order. */
  lemma {:induction false} KeptInOrder(a: seq<Series>, b: seq<Series>)
    ensures NonEmpty(a + b) == NonEmpty(a) + NonEmpty(b)
    decreases |b|
  {
    if b == [] {
      assert a + b == a;
    } else {
      assert (a + b)[..|a + b| - 1] == a + b[..|b| - 1];
      KeptInOrder(a, b[..|b| - 1]);
    }
  }

  /** So are the names of the spikes. */
  lemma {:induction false} SpikesInOrder(a: seq<Series>, b: seq<Series>)
    ensures SpikeNames(a + b) == SpikeNames(a) + SpikeNames(b)
    decreases |b|
  {
    if b == [] {
      assert a + b == a;
    } else {
      hide StatsOf, IsSpike;
      assert (a + b)[..|a + b| - 1] == a + b[..|b| - 1];
      SpikesInOrder(a, b[..|b| - 1]);
    }
  }

  /** A series with values is kept, and named when its greatest value is positive and over twice its average. */
  lemma OneSeries(item: Series)
    ensures NonEmpty([item]) == if item.values == [] then [] else [item]
    ensures SpikeNames([item]) ==
            if item.values != [] && StatsOf(item.values).max > 0.0 && StatsOf(item.values).max > 2.0 * StatsOf(item.values).avg
            then [item.name] else []
  {
    hide StatsOf;
    assert [item][..0] == [];
  }

  /** A name has the statistics of the last of its series that has values. */
  lemma {:induction false} LastSeriesWins(series: seq<Series>, i: nat)
    requires i < |series| && series[i].values != []
    requires forall j :: i < j < |series| && series[j].name == series[i].name ==> series[j].values == []
    ensures series[i].name in StatsByName(series) && StatsByName(series)[series[i].name] == StatsOf(series[i].values)
    decreases |series|
  {
    hide StatsOf;
    if i < |series| - 1 { LastSeriesWins(series[..|series| - 1], i); }
  }

  lemma {:induction false} NamedBySeries(series: seq<Series>, name: string)
    ensures name in StatsByName(series) ==> exists i :: 0 <= i < |series| && series[i].name == name && series[i].values != []
    decreases |series|
  {
    if series != [] {
      hide StatsOf;
      NamedBySeries(series[..|series| - 1], name);
      assert forall i :: 0 <= i < |series| - 1 ==> series[..|series| - 1][i] == series[i];
    }
  }

  method Metrics(series: seq<Series>, limit: int)
    returns (samples: seq<Series>, truncated: bool, stats: map<string, Stats>, spikes: seq<string>)
    ensures samples == if limit > 0 && |NonEmpty(series)| > limit then NonEmpty(series)[..limit] else NonEmpty(series)
    ensures truncated <==> limit > 0 && |NonEmpty(series)| > limit
    ensures stats == StatsByName(series) && spikes == SpikeNames(series)
  {
    hide StatsOf, IsSpike;
    samples, stats, spikes := [], map[], [];
    var k := 0;
    while k < |series|
      invariant 0 <= k <= |series|
      invariant samples == NonEmpty(series[..k]) && spikes == SpikeNames(series[..k]) && stats == StatsByName(series[..k])
    {
      var item := series[k];
      assert series[..k + 1][..k] == series[..k];
      if |item.values| > 0 {
        var t := CalculateStats(item.values);
        stats := stats[item.name := t];
        if IsSpike(t) { spikes := spikes + [item.name]; }
        samples := samples + [item];
      }
      k := k + 1;
    }
    assert series[..k] == series;
    truncated := limit > 0 && |samples| > limit;
    if truncated { samples := samples[..limit]; }
  }
}
