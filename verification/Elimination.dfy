/** Gauss-Jordan elimination as a function of the matrix alone: which pivots it meets, and which matrices it accepts. */
module Elimination {
  import opened LinearSystems
  import opened Vectors

  /** How a solver chooses and judges pivots: the last or the first of the largest, and which of them count as zero. */
  datatype Rule = Rule(last: bool, floor: real, strict: bool)

  predicate Sensible(rule: Rule) {
    rule.floor >= 0.0 && (rule.strict ==> rule.floor > 0.0)
  }

  predicate Negligible(v: real, rule: Rule) {
    Abs(v) < rule.floor || (!rule.strict && Abs(v) == rule.floor)
  }

  // ---------- one step ----------

  /** Row best has the largest entry of column p from row p down, and is the last or the first such row. */
  ghost predicate Largest(a: seq<seq<real>>, p: nat, best: nat, last: bool, n: nat)
    requires Square(a, n)
  {
    && p <= best < n
    && (forall r :: p <= r < n ==> Abs(a[r][p]) <= Abs(a[best][p]))
    && (if last then forall r :: best < r < n ==> Abs(a[r][p]) < Abs(a[best][p])
        else forall r :: p <= r < best ==> Abs(a[r][p]) < Abs(a[best][p]))
  }

  lemma {:induction false} LargestExists(a: seq<seq<real>>, p: nat, k: nat, last: bool, n: nat) returns (best: nat)
    requires Square(a, n) && p < k <= n
    ensures p <= best < k
    ensures forall r :: p <= r < k ==> Abs(a[r][p]) <= Abs(a[best][p])
    ensures last ==> forall r :: best < r < k ==> Abs(a[r][p]) < Abs(a[best][p])
    ensures !last ==> forall r :: p <= r < best ==> Abs(a[r][p]) < Abs(a[best][p])
  {
    if k == p + 1 {
      best := p;
    } else {
      best := LargestExists(a, p, k - 1, last, n);
      if Abs(a[k - 1][p]) > Abs(a[best][p]) || (last && Abs(a[k - 1][p]) == Abs(a[best][p])) {
        best := k - 1;
      }
    }
  }

  ghost function PivotRow(a: seq<seq<real>>, p: nat, last: bool, n: nat): (best: nat)
    requires Square(a, n) && p < n
    ensures Largest(a, p, best, last, n)
  {
    assert exists best: nat :: Largest(a, p, best, last, n) by {
      var best := LargestExists(a, p, n, last, n);
      assert Largest(a, p, best, last, n);
    }
    var best: nat :| Largest(a, p, best, last, n);
    best
  }

  lemma OneLargest(a: seq<seq<real>>, p: nat, best: nat, last: bool, n: nat)
    requires Square(a, n) && p < n && Largest(a, p, best, last, n)
    ensures PivotRow(a, p, last, n) == best
  {
    var other := PivotRow(a, p, last, n);
    assert Abs(a[other][p]) <= Abs(a[best][p]) <= Abs(a[other][p]);
  }

  ghost function Swapped(a: seq<seq<real>>, p: nat, q: nat): seq<seq<real>>
    requires p < |a| && q < |a|
  {
    a[p := a[q]][q := a[p]]
  }

  /** The pivot row divided by its pivot. */
  ghost function UnitRow(a: seq<seq<real>>, p: nat, n: nat): (u: seq<real>)
    requires Square(a, n) && p < n && a[p][p] != 0.0
    ensures |u| == n
  {
    seq(n, c requires 0 <= c < n => a[p][c] / a[p][p])
  }

  /** A row less its pivot-column entry times the unit row. */
  ghost function LessUnit(row: seq<real>, u: seq<real>, p: nat, n: nat): (v: seq<real>)
    requires |row| == n && |u| == n && p < n
    ensures |v| == n
  {
    seq(n, c requires 0 <= c < n => row[c] - Mul(row[p], u[c]))
  }

  ghost function Cleared(a: seq<seq<real>>, p: nat, n: nat): (c: seq<seq<real>>)
    requires Square(a, n) && p < n && a[p][p] != 0.0
    ensures Square(c, n)
  {
    var u := UnitRow(a, p, n);
    seq(n, r requires 0 <= r < n => if r == p then u else LessUnit(a[r], u, p, n))
  }

  // ---------- acceptance ----------

  /** From column p on, every pivot that the elimination meets is large enough. */
  ghost predicate Accepts(a: seq<seq<real>>, p: nat, rule: Rule, n: nat)
    requires Square(a, n) && p <= n && Sensible(rule)
    decreases n - p
  {
    p == n
    || (var best := PivotRow(a, p, rule.last, n);
        !Negligible(a[best][p], rule) && Accepts(Cleared(Swapped(a, p, best), p, n), p + 1, rule, n))
  }

  /** Meeting one pivot: it decides alone when negligible, and otherwise hands the decision to the next column. */
  lemma AcceptsStep(a: seq<seq<real>>, p: nat, best: nat, rule: Rule, n: nat)
    requires Square(a, n) && p < n && Sensible(rule) && Largest(a, p, best, rule.last, n)
    ensures Negligible(a[best][p], rule) ==> !Accepts(a, p, rule, n)
    ensures !Negligible(a[best][p], rule) ==>
      a[best][p] != 0.0
      && (Accepts(a, p, rule, n) <==> Accepts(Cleared(Swapped(a, p, best), p, n), p + 1, rule, n))
  {
    OneLargest(a, p, best, rule.last, n);
  }

  lemma AcceptsEnd(a: seq<seq<real>>, rule: Rule, n: nat)
    requires Square(a, n) && Sensible(rule)
    ensures Accepts(a, n, rule, n)
  {
  }

  // ---------- what a refusal means for the matrix ----------

  /** Rows before p vanish on x, and the others are negligible on it. */
  ghost predicate NegligibleOn(a: seq<seq<real>>, x: seq<real>, p: nat, rule: Rule, n: nat)
    requires Square(a, n) && |x| == n
  {
    forall r :: 0 <= r < n ==> if r < p then Dot(a[r], x, n) == 0.0 else Negligible(Dot(a[r], x, n), rule)
  }

  /** The matrix takes some vector with an entry one to a vector of negligible entries. */
  ghost predicate NearlyNull(a: seq<seq<real>>, x: seq<real>, rule: Rule, n: nat)
    requires Square(a, n)
  {
    |x| == n && 1.0 in x && NegligibleOn(a, x, 0, rule, n)
  }

  /** A column without a pivot exhibits such a vector. */
  lemma NoPivotVector(a: seq<seq<real>>, p: nat, rule: Rule, n: nat) returns (x: seq<real>)
    requires Square(a, n) && p < n && ReducedColumns(a, p, n)
    requires forall r :: p <= r < n ==> Negligible(a[r][p], rule)
    ensures |x| == n && x[p] == 1.0 && NegligibleOn(a, x, p, rule, n)
    ensures forall r :: 0 <= r < n ==> Dot(a[r], x, n) == if r < p then 0.0 else a[r][p]
  {
    x := seq(n, r requires 0 <= r < n => if r < p then -a[r][p] else if r == p then 1.0 else 0.0);
    forall r | 0 <= r < n ensures Dot(a[r], x, n) == if r < p then 0.0 else a[r][p] {
      DotUnitPrefix(a[r], x, r, p);
      DotZeroTail(a[r], x, p + 1, n);
      MulCommutes(a[r][p], x[p]);
      MulUnits(a[r][p]);
      hide Mul;
      assert Dot(a[r], x, p + 1) == Dot(a[r], x, p) + Mul(a[r][p], x[p]);
    }
  }

  lemma UnitRowDot(a: seq<seq<real>>, p: nat, x: seq<real>, n: nat)
    requires Square(a, n) && p < n && a[p][p] != 0.0 && |x| == n
    ensures Dot(UnitRow(a, p, n), x, n) == 0.0 ==> Dot(a[p], x, n) == 0.0
  {
    hide Mul;
    var u := UnitRow(a, p, n);
    ScaledRow(a[p], 0.0, u, 0.0, a[p][p], x, n);
  }

  lemma LessUnitDot(row: seq<real>, u: seq<real>, p: nat, x: seq<real>, n: nat)
    requires |row| == n && |u| == n && p < n && |x| == n
    ensures Dot(u, x, n) == 0.0 ==> Dot(LessUnit(row, u, p, n), x, n) == Dot(row, x, n)
  {
    hide Mul;
    var v := LessUnit(row, u, p, n);
    if Dot(u, x, n) == 0.0 {
      MulAdds(row[p], 0.0, 0.0);
      ReducedRow(u, 0.0, row, Dot(row, x, n), v, Dot(row, x, n), row[p], x, n);
    }
  }

  /** What vanishes or is negligible after a step was so before it. */
  lemma StepBack(a: seq<seq<real>>, p: nat, x: seq<real>, rule: Rule, n: nat)
    requires Square(a, n) && p < n && a[p][p] != 0.0 && |x| == n && Sensible(rule)
    requires NegligibleOn(Cleared(a, p, n), x, p + 1, rule, n)
    ensures NegligibleOn(a, x, p, rule, n)
  {
    hide Dot, UnitRow, LessUnit;
    var c, u := Cleared(a, p, n), UnitRow(a, p, n);
    assert c[p] == u && Dot(c[p], x, n) == 0.0;
    UnitRowDot(a, p, x, n);
    forall r | 0 <= r < n && r != p ensures Dot(a[r], x, n) == Dot(c[r], x, n) {
      LessUnitDot(a[r], u, p, x, n);
    }
  }

  lemma SwapBack(a: seq<seq<real>>, p: nat, q: nat, x: seq<real>, rule: Rule, n: nat)
    requires Square(a, n) && p <= q < n && |x| == n
    requires Square(Swapped(a, p, q), n) && NegligibleOn(Swapped(a, p, q), x, p, rule, n)
    ensures NegligibleOn(a, x, p, rule, n)
  {
    hide Dot, Negligible;
    var s := Swapped(a, p, q);
    assert s[p] == a[q] && s[q] == a[p];
    forall r | 0 <= r < n
      ensures if r < p then Dot(a[r], x, n) == 0.0 else Negligible(Dot(a[r], x, n), rule)
    {
      var k := if r == p then q else if r == q then p else r;
      assert a[r] == s[k];
    }
  }

  /** A step reduces one more column. */
  lemma StepReduces(a: seq<seq<real>>, p: nat, n: nat)
    requires Square(a, n) && p < n && a[p][p] != 0.0 && ReducedColumns(a, p, n)
    ensures ReducedColumns(Cleared(a, p, n), p + 1, n)
  {
    var u := UnitRow(a, p, n);
    UnitEntries(a, p, n);
    forall r, c | 0 <= r < n && 0 <= c <= p
      ensures Cleared(a, p, n)[r][c] == if r == c then 1.0 else 0.0
    {
      MulUnits(a[r][p]);
      MulCommutes(a[r][p], 1.0);
      assert u[c] == if c == p then 1.0 else 0.0;
    }
  }

  lemma UnitEntries(a: seq<seq<real>>, p: nat, n: nat)
    requires Square(a, n) && p < n && a[p][p] != 0.0 && ReducedColumns(a, p, n)
    ensures forall c :: 0 <= c <= p ==> UnitRow(a, p, n)[c] == if c == p then 1.0 else 0.0
  {
    Quotients(a[p][p]);
    assert forall c :: 0 <= c < p ==> a[p][c] == 0.0;
  }

  lemma Quotients(v: real)
    requires v != 0.0
    ensures v / v == 1.0 && 0.0 / v == 0.0
  {
  }

  /** The elimination refuses only a matrix that takes some vector with an entry one to negligible entries. */
  lemma {:induction false} RefusedVector(a: seq<seq<real>>, p: nat, rule: Rule, n: nat) returns (x: seq<real>)
    requires Square(a, n) && p <= n && Sensible(rule) && ReducedColumns(a, p, n)
    requires !Accepts(a, p, rule, n)
    ensures |x| == n && 1.0 in x && NegligibleOn(a, x, p, rule, n)
    decreases n - p
  {
    hide Cleared, NegligibleOn, Negligible;
    var best := PivotRow(a, p, rule.last, n);
    if Negligible(a[best][p], rule) {
      SmallerNegligible(a, p, best, rule, n);
      x := NoPivotVector(a, p, rule, n);
      assert x[p] in x;
    } else {
      var s := Swapped(a, p, best);
      NotNegligible(a[best][p], rule);
      StepReduces(s, p, n);
      x := RefusedVector(Cleared(s, p, n), p + 1, rule, n);
      StepBack(s, p, x, rule, n);
      SwapBack(a, p, best, x, rule, n);
    }
  }

  lemma NotNegligible(v: real, rule: Rule)
    requires Sensible(rule) && !Negligible(v, rule)
    ensures v != 0.0
  {
  }

  lemma SmallerNegligible(a: seq<seq<real>>, p: nat, best: nat, rule: Rule, n: nat)
    requires Square(a, n) && p < n && Largest(a, p, best, rule.last, n) && Negligible(a[best][p], rule)
    ensures forall r :: p <= r < n ==> Negligible(a[r][p], rule)
  {
  }
}
