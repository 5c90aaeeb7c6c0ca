/** The modified Bessel function of order zero: a truncated series with an early exit, and what the exit costs. */
module Bessel {
  import opened Vectors

  const TERM_LIMIT := 64
  const RELATIVE_EXIT := 0.0000000000000001

  /** The factor from term k - 1 to term k. */
  function Ratio(h: real, k: nat): real
    requires k > 0
  {
    h / (k as real * k as real)
  }

  /** Term k of the series at h, a quarter of the squared argument: h^k / (k!)^2. */
  ghost function Term(h: real, k: nat): real {
    if k == 0 then 1.0 else Mul(Term(h, k - 1), Ratio(h, k))
  }

  /** The series up to and including term k. */
  ghost function Series(h: real, k: nat): real {
    if k == 0 then 1.0 else Series(h, k - 1) + Term(h, k)
  }

  ghost function Factorial(k: nat): real {
    if k == 0 then 1.0 else Mul(Factorial(k - 1), k as real)
  }

  ghost function Power(h: real, k: nat): real {
    if k == 0 then 1.0 else Mul(Power(h, k - 1), h)
  }

  /** Term k times the square of the factorial of k is the k-th power: the terms are those of the Bessel series. */
  lemma {:induction false} TermClosed(h: real, k: nat)
    ensures Mul(Term(h, k), Mul(Factorial(k), Factorial(k))) == Power(h, k)
  {
    if k == 0 {
      MulUnits(1.0);
    } else {
      var n := k as real;
      TermClosed(h, k - 1);
      RatioQuotient(h, k, n);
      hide Mul, Ratio;
      TermStep(Term(h, k - 1), Factorial(k - 1), n, h, Power(h, k - 1));
    }
  }

  lemma TermStep(t: real, f: real, n: real, h: real, p: real)
    requires n > 0.0 && Mul(t, Mul(f, f)) == p
    ensures Mul(Mul(t, h / (n * n)), Mul(Mul(f, n), Mul(f, n))) == Mul(p, h)
  {
    var q := h / (n * n);
    assert q * (n * n) == h;
    assert (t * q) * ((f * n) * (f * n)) == (t * (f * f)) * (q * (n * n));
  }

  /** At zero only the first term is there. */
  lemma {:induction false} SeriesAtZero(k: nat)
    ensures Series(0.0, k) == 1.0 && (k > 0 ==> Term(0.0, k) == 0.0)
  {
    if k > 0 {
      SeriesAtZero(k - 1);
      var square := k as real * k as real;
      assert square > 0.0;
      assert Ratio(0.0, k) == 0.0;
      MulCommutes(Term(0.0, k - 1), 0.0);
      MulUnits(Term(0.0, k - 1));
    }
  }

  lemma RatioNonNegative(h: real, k: nat)
    requires h >= 0.0 && k > 0
    ensures Ratio(h, k) >= 0.0
  {
    assert k as real * k as real > 0.0;
  }

  lemma MulMonotone(a: real, b: real, c: real)
    requires a >= 0.0 && b <= c
    ensures Mul(a, b) <= Mul(a, c)
  {
    assert a * (c - b) >= 0.0;
  }

  lemma QuotientBound(h: real, d: real, e: real)
    requires h >= 0.0 && 0.0 < d <= e
    ensures h / e <= h / d
  {
    var x := h / e;
    assert x >= 0.0 && x * e == h;
    assert x * (e - d) >= 0.0;
    assert x * d <= h;
    assert (x * d) / d == x;
    assert (h - x * d) / d >= 0.0;
  }

  lemma RatioDecreases(h: real, j: nat, k: nat)
    requires h >= 0.0 && 0 < j <= k
    ensures Ratio(h, k) <= Ratio(h, j)
  {
    var a, b := j as real, k as real;
    assert 0.0 < a * a;
    assert b * b == a * a + (b - a) * (b + a);
    assert (b - a) * (b + a) >= 0.0;
    QuotientBound(h, a * a, b * b);
  }

  lemma {:induction false} SeriesGrows(h: real, k: nat)
    requires h >= 0.0
    ensures Term(h, k) >= 0.0 && Series(h, k) >= 1.0
    ensures k > 0 ==> Series(h, k) >= Series(h, k - 1)
  {
    hide Mul, Ratio;
    if k > 0 {
      SeriesGrows(h, k - 1);
      RatioNonNegative(h, k);
      MulMonotone(Term(h, k - 1), 0.0, Ratio(h, k));
      MulUnits(Term(h, k - 1));
    }
  }

  // ---------- the exit cannot come too early ----------

  /** While the terms are still growing, each is at least one and the whole series is at most k + 1 of them. */
  lemma {:induction false} GrowingTerms(h: real, k: nat)
    requires h >= 0.0 && (k > 0 ==> Ratio(h, k) >= 1.0)
    ensures Term(h, k) >= 1.0
    ensures Series(h, k) <= Mul((k + 1) as real, Term(h, k))
  {
    hide Mul, Ratio;
    if k == 0 {
      MulUnits(1.0);
      assert (k + 1) as real == 1.0;
    } else {
      if k > 1 {
        RatioDecreases(h, k - 1, k);
      }
      GrowingTerms(h, k - 1);
      var before, now, n := Term(h, k - 1), Term(h, k), k as real;
      MulMonotone(before, 1.0, Ratio(h, k));
      MulCommutes(before, 1.0);
      MulUnits(before);
      MulMonotone(n, before, now);
      OneMore(n, now);
    }
  }

  lemma OneMore(n: real, t: real)
    ensures Mul(n + 1.0, t) == Mul(n, t) + t
  {
  }

  /** The exit test cannot succeed while the terms are still growing. */
  lemma NoExitWhileGrowing(h: real, k: nat)
    requires h >= 0.0 && 0 < k <= TERM_LIMIT && Ratio(h, k) >= 1.0
    ensures Term(h, k) > Series(h, k) * RELATIVE_EXIT
  {
    GrowingTerms(h, k);
    hide Mul, Ratio, Term, Series;
    var t := Term(h, k);
    MulCommutes((k + 1) as real, t);
    MulMonotone(t, (k + 1) as real, 65.0);
    SixtyFiveFold(t);
  }

  lemma SixtyFiveFold(t: real)
    requires t >= 1.0
    ensures Mul(t, 65.0) * RELATIVE_EXIT < t
  {
  }

  // ---------- what the exit costs ----------

  /** The decay that is certain after an exit at term k. */
  ghost function Cost(k: nat): real {
    (k as real * k as real) / (2.0 * k as real + 1.0)
  }

  lemma CostBound(k: nat)
    requires 0 < k <= TERM_LIMIT
    ensures 0.0 <= Cost(k) <= 32.0
  {
    var n := k as real;
    SquareBelow(n);
    FractionBound(n * n, 2.0 * n + 1.0, 32.0);
  }

  lemma SquareBelow(n: real)
    requires 0.0 <= n <= 64.0
    ensures 0.0 <= n * n <= 32.0 * (2.0 * n + 1.0)
  {
    MulMonotone(n, 0.0, n);
    MulMonotone(n, n, 64.0);
  }

  lemma FractionBound(a: real, d: real, b: real)
    requires d > 0.0 && 0.0 <= a <= b * d
    ensures 0.0 <= a / d <= b
  {
    assert (b * d - a) / d >= 0.0;
    assert (b * d) / d == b;
  }

  lemma BelowDivisor(h: real, d: real)
    requires d > 0.0 && h / d < 1.0
    ensures h < d
  {
    var x := h / d;
    assert x * d == h;
    assert (1.0 - x) * d > 0.0;
  }

  lemma TimesDivisor(r: real, h: real, d: real)
    requires d > 0.0 && r <= h / d
    ensures Mul(r, d) <= h
  {
    var x := h / d;
    assert x * d == h;
    assert (x - r) * d >= 0.0;
  }

  lemma CancelDivisor(a: real, b: real, d: real)
    requires d > 0.0 && Mul(a, d) <= Mul(b, d)
    ensures a <= b
  {
    var x := (b - a) * d;
    assert x >= 0.0;
    assert x / d == b - a;
    assert x / d >= 0.0;
  }

  lemma CostScaled(k: nat)
    requires k > 0
    ensures var n := k as real; var d := 2.0 * n + 1.0;
      Mul(Cost(k), d) == n * n && Mul(1.0 + Cost(k), d) == (n + 1.0) * (n + 1.0)
  {
    var n := k as real;
    var d, c := 2.0 * n + 1.0, Cost(k);
    assert c * d == n * n;
    assert (1.0 + c) * d == d + c * d;
    assert (n + 1.0) * (n + 1.0) == n * n + d;
  }

  lemma MulAssociates(a: real, b: real, c: real)
    ensures Mul(Mul(a, b), c) == Mul(a, Mul(b, c))
  {
  }

  /** Once a ratio is below one, every later ratio times the next square is at most this square. */
  lemma LaterRatio(h: real, k: nat, j: nat)
    requires h >= 0.0 && 0 < k < j && Ratio(h, k) < 1.0
    ensures Mul(Ratio(h, j), (k as real + 1.0) * (k as real + 1.0)) <= k as real * k as real
  {
    RatioQuotient(h, k, k as real);
    RatioQuotient(h, k + 1, k as real + 1.0);
    hide Mul, Ratio;
    RatioDecreases(h, k + 1, j);
    AcrossDivisors(h, Ratio(h, j), k as real * k as real, (k as real + 1.0) * (k as real + 1.0));
  }

  lemma AcrossDivisors(h: real, r: real, square: real, next: real)
    requires square > 0.0 && next > 0.0 && h / square < 1.0 && r <= h / next
    ensures Mul(r, next) <= square
  {
    hide Mul;
    BelowDivisor(h, square);
    TimesDivisor(r, h, next);
  }

  lemma RatioQuotient(h: real, k: nat, n: real)
    requires k > 0 && n == k as real
    ensures n * n > 0.0 && Ratio(h, k) == h / (n * n)
  {
  }

  /** After term k the ratio leaves a fixed share: one plus the cost, times the ratio, is at most the cost. */
  lemma RatioAfter(h: real, k: nat, j: nat)
    requires h >= 0.0 && 0 < k < j && Ratio(h, k) < 1.0
    ensures Mul(Ratio(h, j), 1.0 + Cost(k)) <= Cost(k)
  {
    hide Mul, Ratio, Cost;
    var n := k as real;
    var r, c, d := Ratio(h, j), Cost(k), 2.0 * n + 1.0;
    LaterRatio(h, k, j);
    CostScaled(k);
    MulAssociates(r, 1.0 + c, d);
    CancelDivisor(Mul(r, 1.0 + c), c, d);
  }

  /** From an exit on, the series plus its certain remainder can only shrink. */
  lemma {:induction false} RemainderShrinks(h: real, k: nat, n: nat)
    requires h >= 0.0 && 0 < k <= n && Ratio(h, k) < 1.0
    ensures Series(h, n) + Mul(Term(h, n), Cost(k)) <= Series(h, k) + Mul(Term(h, k), Cost(k))
  {
    hide Mul, Ratio, Cost;
    if n > k {
      RemainderShrinks(h, k, n - 1);
      SeriesGrows(h, n - 1);
      RatioAfter(h, k, n);
      var t, r, c := Term(h, n - 1), Ratio(h, n), Cost(k);
      MulMonotone(t, Mul(r, 1.0 + c), c);
      ProductOfSum(t, r, c);
    }
  }

  lemma ProductOfSum(t: real, r: real, c: real)
    ensures Mul(t, Mul(r, 1.0 + c)) == Mul(t, r) + Mul(Mul(t, r), c)
  {
  }

  /** After an exit at term k no number of further terms adds more than 32e-16 of the result. */
  lemma ExitCost(h: real, k: nat, n: nat)
    requires h >= 0.0 && 0 < k <= TERM_LIMIT && k <= n
    requires Term(h, k) <= Series(h, k) * RELATIVE_EXIT
    ensures Series(h, k) <= Series(h, n) <= Series(h, k) * (1.0 + 32.0 * RELATIVE_EXIT)
  {
    if Ratio(h, k) >= 1.0 {
      NoExitWhileGrowing(h, k);
    }
    RemainderShrinks(h, k, n);
    SeriesGrows(h, k);
    SeriesGrows(h, n);
    CostBound(k);
    PrefixSmaller(h, k, n);
    var t, s, c := Term(h, k), Series(h, k), Cost(k);
    CostOfTerm(t, s, c);
    CostBoundAtEnd(Term(h, n), c);
  }

  lemma CostOfTerm(t: real, s: real, c: real)
    requires t >= 0.0 && 0.0 <= c <= 32.0 && t <= s * RELATIVE_EXIT
    ensures Mul(t, c) <= s * (32.0 * RELATIVE_EXIT)
  {
    assert t * (32.0 - c) >= 0.0;
  }

  lemma CostBoundAtEnd(t: real, c: real)
    requires t >= 0.0 && c >= 0.0
    ensures Mul(t, c) >= 0.0
  {
  }

  lemma {:induction false} PrefixSmaller(h: real, k: nat, n: nat)
    requires h >= 0.0 && k <= n
    ensures Series(h, k) <= Series(h, n)
  {
    if k < n {
      PrefixSmaller(h, k, n - 1);
      SeriesGrows(h, n);
    }
  }

  // ---------- the function ----------

  function QuarterSquare(value: real): real {
    Mul(value, value) * 0.25
  }

  lemma QuarterSquareSign(value: real)
    ensures QuarterSquare(value) >= 0.0
  {
    SquareSign(value);
  }

  ghost predicate Negligible(h: real, k: nat) {
    Term(h, k) <= Series(h, k) * RELATIVE_EXIT
  }

  /** Term r is the first that no longer counts, or the last one allowed. */
  ghost predicate StopsAt(h: real, r: nat) {
    && 0 < r <= TERM_LIMIT && (r < TERM_LIMIT ==> Negligible(h, r))
    && forall j: nat :: 0 < j < r ==> !Negligible(h, j)
  }

  /** Counting up to a limit comes to the first number with a property, or to the limit. */
  lemma {:induction false} FirstWith(property: nat -> bool, k: nat, limit: nat) returns (r: nat)
    requires 0 < k <= limit && forall j: nat :: 0 < j < k ==> !property(j)
    ensures 0 < r <= limit && (r < limit ==> property(r))
    ensures forall j: nat :: 0 < j < r ==> !property(j)
    decreases limit - k
  {
    if k == limit || property(k) {
      r := k;
    } else {
      r := FirstWith(property, k + 1, limit);
    }
  }

  ghost function Stop(h: real): (r: nat)
    ensures StopsAt(h, r)
  {
    assert exists r :: StopsAt(h, r) by {
      ghost var negligible := (k: nat) => Negligible(h, k);
      var r := FirstWith(negligible, 1, TERM_LIMIT);
      forall j: nat | 0 < j < r ensures !Negligible(h, j) {
        assert !negligible(j);
      }
      assert StopsAt(h, r);
    }
    var r :| StopsAt(h, r);
    r
  }

  lemma OneStop(h: real, r: nat)
    requires StopsAt(h, r)
    ensures Stop(h) == r
  {
  }

  /** The truncated series as a function of a quarter of the squared argument alone. */
  ghost function Truncated(h: real): real {
    Series(h, Stop(h))
  }

  lemma TruncatedAtZero()
    ensures Truncated(0.0) == 1.0
  {
    SeriesAtZero(Stop(0.0));
  }

  /** A larger argument makes every term and every sum larger. */
  lemma {:induction false} SeriesMonotone(h: real, g: real, k: nat)
    requires 0.0 <= h <= g
    ensures 0.0 <= Term(h, k) <= Term(g, k) && Series(h, k) <= Series(g, k)
  {
    hide Mul, Ratio;
    if k > 0 {
      SeriesMonotone(h, g, k - 1);
      SeriesGrows(h, k);
      RatioNonNegative(h, k);
      RatioMonotone(h, g, k);
      MulMonotone(Term(h, k - 1), Ratio(h, k), Ratio(g, k));
      MulMonotone(Ratio(g, k), Term(h, k - 1), Term(g, k - 1));
      MulCommutes(Ratio(g, k), Term(h, k - 1));
      MulCommutes(Ratio(g, k), Term(g, k - 1));
    }
  }

  lemma RatioMonotone(h: real, g: real, k: nat)
    requires 0.0 <= h <= g && k > 0
    ensures Ratio(h, k) <= Ratio(g, k)
  {
    var square := k as real * k as real;
    assert square > 0.0;
    assert (g - h) / square >= 0.0;
    assert g / square - h / square == (g - h) / square;
  }

  /** The truncated series increases with its argument up to the truncation bound. */
  lemma TruncatedNearlyMonotone(h: real, g: real)
    requires 0.0 <= h <= g
    ensures Truncated(h) <= Truncated(g) * (1.0 + 32.0 * RELATIVE_EXIT)
  {
    hide Truncated, Series;
    TruncationBound(h, TERM_LIMIT);
    TruncationBound(g, TERM_LIMIT);
    SeriesMonotone(h, g, TERM_LIMIT);
  }

  /** At least one, and short by at most 32e-16 of itself of every sum that is no longer than 64 terms, or
    * after an early exit of any longer sum.
    */
  lemma TruncationBound(h: real, n: nat)
    requires h >= 0.0
    ensures Truncated(h) >= 1.0
    ensures Stop(h) <= n && (n <= TERM_LIMIT || Negligible(h, Stop(h))) ==>
      Truncated(h) <= Series(h, n) <= Truncated(h) * (1.0 + 32.0 * RELATIVE_EXIT)
  {
    hide Term, Series;
    var k := Stop(h);
    SeriesGrows(h, k);
    if k <= n && Negligible(h, k) {
      ExitCost(h, k, n);
    }
  }

  method ModifiedBesselI0(value: real) returns (sum: real)
    ensures QuarterSquare(value) >= 0.0
    ensures sum == Truncated(QuarterSquare(value)) && sum >= 1.0
  {
    var halfSquared := QuarterSquare(value);
    QuarterSquareSign(value);
    sum := SumSeries(halfSquared);
    TruncationBound(halfSquared, TERM_LIMIT);
  }

  method SumSeries(h: real) returns (sum: real)
    requires h >= 0.0
    ensures sum == Truncated(h)
  {
    hide Mul, Ratio, Term, Series;
    sum := 1.0;
    var term := 1.0;
    ghost var k := 0;
    StartOfSeries(h);
    for order := 1 to TERM_LIMIT + 1
      invariant k == order - 1
      invariant sum == Series(h, k) && term == Term(h, k)
      invariant forall j: nat :: 0 < j < order ==> !Negligible(h, j)
    {
      NextOfSeries(h, order);
      term := Mul(term, Ratio(h, order));
      sum := sum + term;
      k := order;
      SeriesGrows(h, k);
      if Abs(term) <= Abs(sum) * RELATIVE_EXIT {
        OneStop(h, k);
        return;
      }
    }
    OneStop(h, k);
  }

  lemma StartOfSeries(h: real)
    ensures Term(h, 0) == 1.0 && Series(h, 0) == 1.0
  {
  }

  lemma NextOfSeries(h: real, k: nat)
    requires k > 0
    ensures Term(h, k) == Mul(Term(h, k - 1), Ratio(h, k)) && Series(h, k) == Series(h, k - 1) + Term(h, k)
  {
  }
}
