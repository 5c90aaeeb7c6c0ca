/** The distribution of process-call durations: which durations are accepted, and which samples the statistics are. */
module Latency {
  import opened Outcomes
  import opened OrderStatistics

  datatype TailDistribution = TailDistribution(
    samples: seq<real>, min: real, median: real, p95: real, p99: real, p999: real, max: real)

  datatype LatencyError =
    | NoSamples
    | NotPositive(index: nat)
    | InvalidDuration

  // ---------- the distribution ----------

  /** Every statistic is the one that the raw samples, in whatever order, determine. */
  ghost predicate Summarizes(samples: seq<real>, d: TailDistribution) {
    var n := |samples|;
    && d.samples == samples
    && Ranked(samples, 1, d.min) && Ranked(samples, n, d.max)
    && Ranked(samples, Rank(n, 0.95), d.p95)
    && Ranked(samples, Rank(n, 0.99), d.p99)
    && Ranked(samples, Rank(n, 0.999), d.p999)
    && Median(samples, d.median)
  }

  /** The samples whose ranks surround the middle; they coincide for an odd number of samples. */
  ghost predicate Surround(samples: seq<real>, low: real, high: real) {
    Ranked(samples, (|samples| + 1) / 2, low) && Ranked(samples, |samples| / 2 + 1, high)
  }

  ghost predicate Median(samples: seq<real>, m: real) {
    exists low: real, high: real :: Surround(samples, low, high) && m == (low + high) / 2.0
  }

  /** At most one distribution summarizes given samples. */
  lemma SummaryIsUnique(samples: seq<real>, d: TailDistribution, e: TailDistribution)
    requires Summarizes(samples, d) && Summarizes(samples, e)
    ensures d == e
  {
    hide AtMost, Rank, Ranked;
    var low, high :| Surround(samples, low, high) && d.median == (low + high) / 2.0;
    var low', high' :| Surround(samples, low', high') && e.median == (low' + high') / 2.0;
    RankedIsUnique(samples, (|samples| + 1) / 2, low, low');
    RankedIsUnique(samples, |samples| / 2 + 1, high, high');
    RankedIsUnique(samples, 1, d.min, e.min);
    RankedIsUnique(samples, Rank(|samples|, 0.95), d.p95, e.p95);
    RankedIsUnique(samples, Rank(|samples|, 0.99), d.p99, e.p99);
    RankedIsUnique(samples, Rank(|samples|, 0.999), d.p999, e.p999);
    RankedIsUnique(samples, |samples|, d.max, e.max);
  }

  /** Reordering the samples changes no statistic. */
  lemma SummaryPermutes(a: seq<real>, b: seq<real>, d: TailDistribution)
    requires multiset(a) == multiset(b) && Summarizes(a, d)
    ensures Summarizes(b, d.(samples := b))
  {
    hide Ranked, Rank;
    assert |a| == |multiset(a)| == |b|;
    var n := |a|;
    var low, high :| Surround(a, low, high) && d.median == (low + high) / 2.0;
    RankedPermutes(a, b, (n + 1) / 2, low);
    RankedPermutes(a, b, n / 2 + 1, high);
    assert Surround(b, low, high);
    RankedPermutes(a, b, 1, d.min);
    RankedPermutes(a, b, Rank(n, 0.95), d.p95);
    RankedPermutes(a, b, Rank(n, 0.99), d.p99);
    RankedPermutes(a, b, Rank(n, 0.999), d.p999);
    RankedPermutes(a, b, n, d.max);
  }

  lemma RanksInOrder(n: nat)
    requires n > 0
    ensures 1 <= (n + 1) / 2 <= n / 2 + 1 <= Rank(n, 0.95) <= Rank(n, 0.99) <= Rank(n, 0.999) <= n
  {
    RankAscends(n, 0.95, 0.99);
    RankAscends(n, 0.99, 0.999);
    RankInRange(n, 0.999);
    MiddleBelow95(n);
  }

  /** The statistics are in order. */
  lemma SummaryAscends(samples: seq<real>, d: TailDistribution)
    requires samples != [] && Summarizes(samples, d)
    ensures d.min <= d.median <= d.p95 <= d.p99 <= d.p999 <= d.max
  {
    hide Ranked, Rank;
    var n := |samples|;
    RanksInOrder(n);
    var low, high :| Surround(samples, low, high) && d.median == (low + high) / 2.0;
    RankedAscends(samples, 1, (n + 1) / 2, d.min, low);
    RankedAscends(samples, (n + 1) / 2, n / 2 + 1, low, high);
    RankedAscends(samples, n / 2 + 1, Rank(n, 0.95), high, d.p95);
    RankedAscends(samples, Rank(n, 0.95), Rank(n, 0.99), d.p95, d.p99);
    RankedAscends(samples, Rank(n, 0.99), Rank(n, 0.999), d.p99, d.p999);
    RankedAscends(samples, Rank(n, 0.999), n, d.p999, d.max);
  }

  function NearestRank(sorted: seq<real>, percentile: real): real
    requires sorted != [] && 0.0 <= percentile <= 1.0
  {
    RankInRange(|sorted|, percentile);
    sorted[Rank(|sorted|, percentile) - 1]
  }

  function MedianOf(sorted: seq<real>): real
    requires sorted != []
  {
    var middle := |sorted| / 2;
    if |sorted| % 2 == 0 then (sorted[middle - 1] + sorted[middle]) / 2.0 else sorted[middle]
  }

  /** The statistics read off sorted samples. */
  function TailOf(samples: seq<real>, sorted: seq<real>): TailDistribution
    requires sorted != []
  {
    TailDistribution(samples, sorted[0], MedianOf(sorted), NearestRank(sorted, 0.95), NearestRank(sorted, 0.99),
      NearestRank(sorted, 0.999), sorted[|sorted| - 1])
  }

  lemma SortedMedian(samples: seq<real>, sorted: seq<real>)
    requires Ascending(sorted) && multiset(sorted) == multiset(samples) && sorted != []
    ensures Median(samples, MedianOf(sorted))
  {
    var n := |sorted|;
    assert n == |multiset(sorted)| == |samples|;
    SortedIsRanked(samples, sorted, (n + 1) / 2);
    SortedIsRanked(samples, sorted, n / 2 + 1);
    hide Ranked;
    var low, high := sorted[(n + 1) / 2 - 1], sorted[n / 2];
    assert Surround(samples, low, high);
    assert MedianOf(sorted) == (low + high) / 2.0;
  }

  lemma NearestIsRanked(samples: seq<real>, sorted: seq<real>, p: real)
    requires Ascending(sorted) && multiset(sorted) == multiset(samples) && sorted != [] && 0.0 <= p <= 1.0
    ensures Ranked(samples, Rank(|sorted|, p), NearestRank(sorted, p))
  {
    RankInRange(|sorted|, p);
    hide Rank, Ranked;
    SortedIsRanked(samples, sorted, Rank(|sorted|, p));
  }

  lemma SortedSummarizes(samples: seq<real>, sorted: seq<real>)
    requires Ascending(sorted) && multiset(sorted) == multiset(samples) && sorted != []
    ensures Summarizes(samples, TailOf(samples, sorted))
  {
    hide Ranked, Rank, Median, MedianOf, NearestRank, Ascending;
    assert |sorted| == |multiset(sorted)| == |samples|;
    SortedMedian(samples, sorted);
    SortedIsRanked(samples, sorted, 1);
    SortedIsRanked(samples, sorted, |sorted|);
    NearestIsRanked(samples, sorted, 0.95);
    NearestIsRanked(samples, sorted, 0.99);
    NearestIsRanked(samples, sorted, 0.999);
  }

  method Summarize(samples: seq<real>) returns (d: TailDistribution)
    requires samples != []
    ensures Summarizes(samples, d)
  {
    var sorted := SortSamples(samples);
    assert |sorted| == |multiset(sorted)| == |samples|;
    SortedSummarizes(samples, sorted);
    d := TailOf(samples, sorted);
  }

  predicate FirstNotPositive(samples: seq<real>, i: nat) {
    i < |samples| && samples[i] <= 0.0 && forall k :: 0 <= k < i ==> samples[k] > 0.0
  }

  method SummarizeCallbackSamples(samples: seq<real>) returns (r: Result<TailDistribution, LatencyError>)
    ensures r.Ok? <==> samples != [] && forall k :: 0 <= k < |samples| ==> samples[k] > 0.0
    ensures r.Ok? ==> Summarizes(samples, r.value)
    ensures r.Err? && samples != [] ==> r.error.NotPositive? && FirstNotPositive(samples, r.error.index)
  {
    if samples == [] {
      return Err(NoSamples);
    }
    for i := 0 to |samples|
      invariant forall k :: 0 <= k < i ==> samples[k] > 0.0
    {
      if samples[i] <= 0.0 {
        return Err(NotPositive(i));
      }
    }
    var d := Summarize(samples);
    return Ok(d);
  }

  /** Durations of zero are below the clock's resolution and are kept. */
  method SummarizeCalls(samples: seq<real>) returns (r: Result<TailDistribution, LatencyError>)
    ensures r.Ok? <==> samples != [] && forall k :: 0 <= k < |samples| ==> samples[k] >= 0.0
    ensures r.Ok? ==> Summarizes(samples, r.value)
  {
    if 0.0 !in samples {
      r := SummarizeCallbackSamples(samples);
      assert forall k :: 0 <= k < |samples| ==> samples[k] in samples;
      return;
    }
    if exists k :: 0 <= k < |samples| && samples[k] < 0.0 {
      return Err(InvalidDuration);
    }
    var d := Summarize(samples);
    return Ok(d);
  }
}
