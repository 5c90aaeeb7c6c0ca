/** Nearest-rank statistics: each reported value is the least sample that enough samples do not exceed. */
module OrderStatistics {

  predicate Ascending(s: seq<real>) {
    forall i, j :: 0 <= i <= j < |s| ==> s[i] <= s[j]
  }

  function Insert(s: seq<real>, x: real): seq<real> {
    if s == [] then [x]
    else if s[|s| - 1] <= x then s + [x]
    else Insert(s[..|s| - 1], x) + [s[|s| - 1]]
  }

  lemma {:induction false} InsertAdds(s: seq<real>, x: real)
    ensures multiset(Insert(s, x)) == multiset(s) + multiset{x}
  {
    if s != [] && s[|s| - 1] > x {
      var front, last := s[..|s| - 1], s[|s| - 1];
      InsertAdds(front, x);
      assert s == front + [last];
      assert multiset(s) == multiset(front) + multiset{last};
    }
  }

  lemma Extended(s: seq<real>, last: real)
    requires Ascending(s) && forall y :: y in multiset(s) ==> y <= last
    ensures Ascending(s + [last])
  {
    forall i | 0 <= i < |s| ensures s[i] <= last {
      assert s[i] in multiset(s);
    }
  }

  lemma {:induction false} InsertKeeps(s: seq<real>, x: real)
    requires Ascending(s)
    ensures Ascending(Insert(s, x))
  {
    if s != [] && s[|s| - 1] > x {
      var front, last := s[..|s| - 1], s[|s| - 1];
      InsertKeeps(front, x);
      InsertAdds(front, x);
      Extended(Insert(front, x), last);
    }
  }

  /** The samples in ascending order. */
  method SortSamples(samples: seq<real>) returns (sorted: seq<real>)
    ensures Ascending(sorted) && multiset(sorted) == multiset(samples)
  {
    sorted := [];
    for i := 0 to |samples|
      invariant Ascending(sorted) && multiset(sorted) == multiset(samples[..i])
    {
      InsertKeeps(sorted, samples[i]);
      InsertAdds(sorted, samples[i]);
      assert samples[..i + 1] == samples[..i] + [samples[i]];
      sorted := Insert(sorted, samples[i]);
    }
    assert samples[..|samples|] == samples;
  }

  /** How many samples do not exceed v. */
  function AtMost(s: seq<real>, v: real): (n: nat)
    ensures n <= |s|
  {
    if s == [] then 0 else AtMost(s[..|s| - 1], v) + if s[|s| - 1] <= v then 1 else 0
  }

  /** The least sample that at least k samples do not exceed. */
  ghost predicate Ranked(samples: seq<real>, k: nat, v: real) {
    && v in samples && AtMost(samples, v) >= k
    && forall w :: w in samples && AtMost(samples, w) >= k ==> v <= w
  }

  lemma RankedIsUnique(samples: seq<real>, k: nat, v: real, w: real)
    requires Ranked(samples, k, v) && Ranked(samples, k, w)
    ensures v == w
  {
  }

  lemma RankedAscends(samples: seq<real>, k: nat, l: nat, v: real, w: real)
    requires k <= l && Ranked(samples, k, v) && Ranked(samples, l, w)
    ensures v <= w
  {
  }

  // ---------- counting does not depend on order ----------

  lemma {:induction false} AtMostConcat(a: seq<real>, b: seq<real>, v: real)
    ensures AtMost(a + b, v) == AtMost(a, v) + AtMost(b, v)
  {
    if b == [] {
      assert a + b == a;
    } else {
      assert (a + b)[..|a + b| - 1] == a + b[..|b| - 1];
      AtMostConcat(a, b[..|b| - 1], v);
    }
  }

  /** The last value of one ordering can be taken out of the other. */
  lemma TakeOut(a: seq<real>, b: seq<real>) returns (j: nat)
    requires a != [] && multiset(a) == multiset(b)
    ensures j < |b| && b[j] == a[|a| - 1]
    ensures multiset(a[..|a| - 1]) == multiset(b[..j] + b[j + 1..])
  {
    var front, x := a[..|a| - 1], a[|a| - 1];
    assert a == front + [x];
    assert x in multiset(b);
    j :| 0 <= j < |b| && b[j] == x;
    assert b == b[..j] + [x] + b[j + 1..];
    assert multiset(front) == multiset(a) - multiset{x};
    assert multiset(b[..j] + b[j + 1..]) == multiset(b) - multiset{x};
  }

  lemma {:induction false} AtMostPermutes(a: seq<real>, b: seq<real>, v: real)
    requires multiset(a) == multiset(b)
    ensures AtMost(a, v) == AtMost(b, v)
  {
    if a == [] {
      assert |multiset(b)| == 0;
    } else {
      var j := TakeOut(a, b);
      var front, x := a[..|a| - 1], [b[j]];
      var left, right := b[..j], b[j + 1..];
      AtMostPermutes(front, left + right, v);
      assert a == front + x && b == left + x + right;
      hide AtMost;
      AtMostConcat(left, right, v);
      AtMostConcat(left + x, right, v);
      AtMostConcat(left, x, v);
      AtMostConcat(front, x, v);
    }
  }

  lemma RankedPermutes(a: seq<real>, b: seq<real>, k: nat, v: real)
    requires multiset(a) == multiset(b) && Ranked(a, k, v)
    ensures Ranked(b, k, v)
  {
    assert v in multiset(b);
    AtMostPermutes(a, b, v);
    forall w | w in b && AtMost(b, w) >= k ensures v <= w {
      assert w in multiset(a);
      AtMostPermutes(a, b, w);
    }
  }

  // ---------- positions of a sorted sequence ----------

  /** In ascending order the k-th value is at most v exactly when at least k values are. */
  lemma {:induction false} AtMostSorted(s: seq<real>, k: nat, v: real)
    requires Ascending(s) && 1 <= k <= |s|
    ensures AtMost(s, v) >= k <==> s[k - 1] <= v
  {
    var front := s[..|s| - 1];
    if k == |s| {
      if s[k - 1] <= v && k > 1 {
        AtMostSorted(front, k - 1, v);
      }
    } else {
      AtMostSorted(front, k, v);
      if s[|s| - 1] <= v {
        assert s[k - 1] <= s[|s| - 1];
      }
    }
  }

  /** Position k - 1 of the sorted samples holds the sample of rank k. */
  lemma SortedIsRanked(samples: seq<real>, sorted: seq<real>, k: nat)
    requires Ascending(sorted) && multiset(sorted) == multiset(samples) && 1 <= k <= |sorted|
    ensures Ranked(samples, k, sorted[k - 1])
  {
    var v := sorted[k - 1];
    AtMostSorted(sorted, k, v);
    forall w | w in sorted && AtMost(sorted, w) >= k ensures v <= w {
      AtMostSorted(sorted, k, w);
    }
    assert v in sorted;
    RankedPermutes(sorted, samples, k, v);
  }

  // ---------- ranks ----------

  function Ceiling(x: real): int {
    -((-x).Floor)
  }

  /** The nearest rank of a percentile among n samples. */
  function Rank(n: nat, p: real): nat {
    var rank := Ceiling(n as real * p);
    if rank > 1 then rank else 1
  }

  /** The rank is the least count, one at least, that reaches its share of the samples. */
  lemma RankIsLeast(n: nat, p: real, k: nat)
    requires k >= 1
    ensures k as real >= n as real * p <==> k >= Rank(n, p)
  {
    var share := n as real * p;
    assert (-share).Floor as real <= -share < (-share).Floor as real + 1.0;
  }

  lemma RankInRange(n: nat, p: real)
    requires n > 0 && 0.0 <= p <= 1.0
    ensures 1 <= Rank(n, p) <= n
  {
    assert n as real * (1.0 - p) >= 0.0;
  }

  lemma RankAscends(n: nat, p: real, q: real)
    requires 0.0 <= p <= q
    ensures Rank(n, p) <= Rank(n, q)
  {
    assert n as real * (q - p) >= 0.0;
  }

  /** The upper middle position never ranks above the 95th percentile. */
  lemma MiddleBelow95(n: nat)
    requires n > 0
    ensures n / 2 + 1 <= Rank(n, 0.95)
  {
  }
}
