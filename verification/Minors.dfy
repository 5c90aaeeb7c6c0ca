/** Acceptance of a three by three matrix in closed form: its lead entry, its minors and its determinant. */
module Minors {
  import opened Elimination
  import opened LinearSystems
  import opened Vectors

  /** The minor of two rows over the columns 0 and k. */
  function Minor(u: seq<real>, v: seq<real>, k: nat): real
    requires |u| == 3 && |v| == 3 && k < 3
  {
    Mul(u[0], v[k]) - Mul(v[0], u[k])
  }

  function Determinant(u: seq<real>, v: seq<real>, w: seq<real>): real
    requires |u| == 3 && |v| == 3 && |w| == 3
  {
    Mul(u[0], Mul(v[1], w[2]) - Mul(v[2], w[1]))
    - Mul(v[0], Mul(u[1], w[2]) - Mul(u[2], w[1]))
    + Mul(w[0], Mul(u[1], v[2]) - Mul(u[2], v[1]))
  }

  /** v is large enough next to u: their quotient is not negligible. */
  predicate Reaches(v: real, u: real, rule: Rule) {
    if rule.strict then Abs(v) >= Mul(rule.floor, Abs(u)) else Abs(v) > Mul(rule.floor, Abs(u))
  }

  /** The lead entry, the larger minor with the lead row, and the determinant each reach the one before. */
  ghost predicate GoodMinors(a: seq<seq<real>>, rule: Rule)
    requires Square(a, 3)
  {
    var i := PivotRow(a, 0, rule.last, 3);
    var lead, j, k := a[i], a[(i + 1) % 3], a[(i + 2) % 3];
    var minor := Larger(Abs(Minor(lead, j, 1)), Abs(Minor(lead, k, 1)));
    && !Negligible(lead[0], rule)
    && Reaches(minor, lead[0], rule)
    && Reaches(Determinant(a[0], a[1], a[2]), minor, rule)
  }

  lemma QuotientReaches(v: real, u: real, rule: Rule)
    requires u != 0.0 && Sensible(rule)
    ensures Negligible(v / u, rule) <==> !Reaches(v, u, rule)
  {
    AbsQuotient(v, u);
    var q, d := Abs(v / u), Abs(u);
    assert d > 0.0 && q * d == Abs(v);
    CompareProducts(q, rule.floor, d);
  }

  lemma AbsQuotient(v: real, u: real)
    requires u != 0.0
    ensures Abs(v / u) * Abs(u) == Abs(v)
  {
    var q := v / u;
    assert q * u == v;
    AbsProduct(q, u);
  }

  lemma AbsProduct(a: real, b: real)
    ensures Abs(a) * Abs(b) == Abs(a * b)
  {
    if a >= 0.0 && b >= 0.0 {
      assert a * b >= 0.0;
    } else if a < 0.0 && b < 0.0 {
      assert (-a) * (-b) > 0.0;
    } else if a < 0.0 {
      assert (-a) * b >= 0.0;
    } else {
      assert a * (-b) >= 0.0;
    }
  }

  lemma CompareProducts(q: real, f: real, d: real)
    requires d > 0.0
    ensures q < f <==> q * d < Mul(f, d)
    ensures q == f <==> q * d == Mul(f, d)
  {
    var slack := f - q;
    assert slack * d == f * d - q * d;
    if slack > 0.0 {
      assert slack * d > 0.0;
    } else if slack < 0.0 {
      assert (-slack) * d > 0.0;
    }
  }

  // ---------- one step of the elimination ----------

  /** After the first step the entries of a row are minors over the lead. */
  lemma FirstStep(s: seq<seq<real>>, r: nat, k: nat)
    requires Square(s, 3) && s[0][0] != 0.0 && 0 < r < 3 && k < 3
    ensures Cleared(s, 0, 3)[r][k] == Minor(s[0], s[r], k) / s[0][0]
  {
    StepQuotient(s[0][0], s[0][k], s[r][0], s[r][k]);
  }

  lemma StepQuotient(d: real, u: real, f: real, v: real)
    requires d != 0.0
    ensures v - Mul(f, u / d) == (Mul(d, v) - Mul(f, u)) / d
  {
    var q := u / d;
    assert q * d == u;
    assert (v - f * q) * d == d * v - f * u;
  }

  /** After the second step the last entry is the determinant over the minor, up to its sign. */
  lemma SecondStep(u: seq<real>, v: seq<real>, w: seq<real>)
    requires |u| == 3 && |v| == 3 && |w| == 3 && u[0] != 0.0 && Minor(u, v, 1) != 0.0
    ensures Minor(u, v, 1) / u[0] != 0.0
    ensures Minor(u, w, 2) / u[0] - Mul(Minor(u, w, 1) / u[0], (Minor(u, v, 2) / u[0]) / (Minor(u, v, 1) / u[0]))
      == Determinant(u, v, w) / Minor(u, v, 1)
  {
    var d, m, n, x, y := u[0], Minor(u, v, 1), Minor(u, v, 2), Minor(u, w, 1), Minor(u, w, 2);
    Sylvester(u, v, w);
    hide Minor, Determinant;
    QuotientOfQuotients(d, m, n, x, y, Determinant(u, v, w));
  }

  lemma Sylvester(u: seq<real>, v: seq<real>, w: seq<real>)
    requires |u| == 3 && |v| == 3 && |w| == 3
    ensures Minor(u, w, 2) * Minor(u, v, 1) - Minor(u, w, 1) * Minor(u, v, 2) == u[0] * Determinant(u, v, w)
  {
    SylvesterEntries(u[0], u[1], u[2], v[0], v[1], v[2], w[0], w[1], w[2]);
  }

  lemma SylvesterEntries(a: real, b: real, c: real, d: real, e: real, f: real, g: real, h: real, i: real)
    ensures (a * i - g * c) * (a * e - d * b) - (a * h - g * b) * (a * f - d * c)
      == a * (a * (e * i - f * h) - d * (b * i - c * h) + g * (b * f - c * e))
  {
  }

  lemma QuotientOfQuotients(d: real, m: real, n: real, x: real, y: real, det: real)
    requires d != 0.0 && m != 0.0 && y * m - x * n == d * det
    ensures m / d != 0.0
    ensures y / d - Mul(x / d, (n / d) / (m / d)) == det / m
  {
    CommonDivisor(d, m, n);
    var t, z := n / m, det / m;
    assert t * m == n && z * m == det;
    assert (y - x * t - d * z) * m == 0.0 by {
      assert (x * t) * m == x * (t * m) && (d * z) * m == d * (z * m);
    }
    MulUnits(m);
    ZeroProduct(y - x * t - d * z, m);
    SplitQuotient(d, x, y, t, z);
  }

  lemma CommonDivisor(d: real, m: real, n: real)
    requires d != 0.0 && m != 0.0
    ensures m / d != 0.0 && (n / d) / (m / d) == n / m
  {
    var p, q, t := n / d, m / d, n / m;
    assert p * d == n && q * d == m && t * m == n;
    assert (t * q) * d == p * d;
    assert t * q == p;
  }

  lemma SplitQuotient(d: real, x: real, y: real, t: real, z: real)
    requires d != 0.0 && y - x * t - d * z == 0.0
    ensures y / d - Mul(x / d, t) == z
  {
    var p, q := x / d, y / d;
    assert p * d == x && q * d == y;
    assert (q - p * t) * d == z * d;
  }

  // ---------- the whole elimination ----------
  // The size is a parameter n that must be three: written as a literal, it would have every use of the recursive
  // elimination unfolded to its end.

  lemma DeterminantFlips(u: seq<real>, v: seq<real>, w: seq<real>)
    requires |u| == 3 && |v| == 3 && |w| == 3
    ensures Determinant(v, u, w) == -Determinant(u, v, w)
    ensures Determinant(u, w, v) == -Determinant(u, v, w)
  {
    FlipEntries(u[0], u[1], u[2], v[0], v[1], v[2], w[0], w[1], w[2]);
  }

  lemma FlipEntries(a: real, b: real, c: real, d: real, e: real, f: real, g: real, h: real, i: real)
    ensures d * (b * i - c * h) - a * (e * i - f * h) + g * (e * c - f * b)
      == -(a * (e * i - f * h) - d * (b * i - c * h) + g * (b * f - c * e))
    ensures a * (h * f - i * e) - g * (b * f - c * e) + d * (b * i - c * h)
      == -(a * (e * i - f * h) - d * (b * i - c * h) + g * (b * f - c * e))
  {
  }

  /** The third pivot is the determinant over the chosen minor. */
  lemma ThirdPivot(s: seq<seq<real>>, best: nat, rule: Rule, n: nat)
    requires n == 3 && Square(s, n) && s[0][0] != 0.0 && 1 <= best < 3 && Sensible(rule)
    requires Minor(s[0], s[best], 1) != 0.0
    ensures var c := Cleared(s, 0, n);
      && c[best][1] != 0.0
      && (Accepts(Cleared(Swapped(c, 1, best), 1, n), 2, rule, n)
          <==> Reaches(Determinant(s[0], s[best], s[3 - best]), Minor(s[0], s[best], 1), rule))
  {
    var c, other := Cleared(s, 0, n), 3 - best;
    hide Cleared, Minor, Determinant, Accepts, Reaches, Negligible;
    FirstStep(s, best, 1);
    FirstStep(s, best, 2);
    FirstStep(s, other, 1);
    FirstStep(s, other, 2);
    SecondStep(s[0], s[best], s[other]);
    var t := Swapped(c, 1, best);
    var e := Cleared(t, 1, n);
    assert t[1] == c[best] && t[2] == c[other];
    ClearedEntry(t, 1, 2, 2, n);
    assert Largest(e, 2, 2, rule.last, n);
    AcceptsStep(e, 2, 2, rule, n);
    QuotientReaches(Determinant(s[0], s[best], s[other]), Minor(s[0], s[best], 1), rule);
    if !Negligible(e[2][2], rule) {
      AcceptsEnd(Cleared(Swapped(e, 2, 2), 2, n), rule, n);
    }
  }

  lemma ClearedEntry(a: seq<seq<real>>, p: nat, r: nat, c: nat, n: nat)
    requires Square(a, n) && p < n && r < n && c < n && r != p && a[p][p] != 0.0
    ensures Cleared(a, p, n)[r][c] == a[r][c] - Mul(a[r][p], a[p][c] / a[p][p])
  {
  }

  /** The second pivot is the larger of the two minors over the lead. */
  lemma SecondPivot(s: seq<seq<real>>, rule: Rule, n: nat) returns (best: nat)
    requires n == 3 && Square(s, n) && s[0][0] != 0.0 && Sensible(rule)
    ensures 1 <= best < 3
    ensures Abs(Minor(s[0], s[best], 1)) == Larger(Abs(Minor(s[0], s[1], 1)), Abs(Minor(s[0], s[2], 1)))
    ensures Largest(Cleared(s, 0, n), 1, best, rule.last, n)
    ensures Negligible(Cleared(s, 0, n)[best][1], rule) <==> !Reaches(Minor(s[0], s[best], 1), s[0][0], rule)
    ensures Cleared(s, 0, n)[best][1] != 0.0 ==> Minor(s[0], s[best], 1) != 0.0
  {
    var c := Cleared(s, 0, n);
    best := PivotRow(c, 1, rule.last, n);
    hide Cleared, Minor, Reaches, Negligible;
    var d, x, y := s[0][0], Minor(s[0], s[1], 1), Minor(s[0], s[2], 1);
    FirstStep(s, 1, 1);
    FirstStep(s, 2, 1);
    QuotientReaches(x, d, rule);
    QuotientReaches(y, d, rule);
    assert Abs(c[1][1]) <= Abs(c[best][1]) && Abs(c[2][1]) <= Abs(c[best][1]);
    LargerQuotient(x, y, d);
    ZeroQuotient(x, d);
    ZeroQuotient(y, d);
  }

  lemma LargerQuotient(x: real, y: real, d: real)
    requires d != 0.0
    ensures Abs(x / d) <= Abs(y / d) ==> Abs(x) <= Abs(y)
    ensures Abs(y / d) <= Abs(x / d) ==> Abs(y) <= Abs(x)
  {
    AbsQuotient(x, d);
    AbsQuotient(y, d);
    var p, q, u := Abs(x / d), Abs(y / d), Abs(d);
    CompareProducts(p, q, u);
  }

  lemma ZeroQuotient(x: real, d: real)
    requires d != 0.0
    ensures x / d != 0.0 ==> x != 0.0
  {
  }

  lemma ReachesMagnitude(v: real, v': real, u: real, u': real, rule: Rule)
    requires Abs(v) == Abs(v') && Abs(u) == Abs(u')
    ensures Reaches(v, u, rule) <==> Reaches(v', u', rule)
  {
  }

  /** From the second column on, the minors and the determinant decide. */
  lemma LaterPivots(s: seq<seq<real>>, rule: Rule, n: nat)
    requires n == 3 && Square(s, n) && s[0][0] != 0.0 && Sensible(rule)
    ensures var minor := Larger(Abs(Minor(s[0], s[1], 1)), Abs(Minor(s[0], s[2], 1)));
      Accepts(Cleared(s, 0, n), 1, rule, n)
      <==> Reaches(minor, s[0][0], rule) && Reaches(Determinant(s[0], s[1], s[2]), minor, rule)
  {
    var c := Cleared(s, 0, n);
    var best := SecondPivot(s, rule, n);
    DeterminantFlips(s[0], s[1], s[2]);
    var m, det := Minor(s[0], s[best], 1), Determinant(s[0], s[best], s[3 - best]);
    var minor := Larger(Abs(Minor(s[0], s[1], 1)), Abs(Minor(s[0], s[2], 1)));
    assert Abs(minor) == Abs(m) && Abs(det) == Abs(Determinant(s[0], s[1], s[2]));
    hide Cleared, Minor, Determinant, Accepts, Reaches, Negligible, Largest;
    ReachesMagnitude(m, minor, s[0][0], s[0][0], rule);
    ReachesMagnitude(det, Determinant(s[0], s[1], s[2]), m, minor, rule);
    AcceptsStep(c, 1, best, rule, n);
    if !Negligible(c[best][1], rule) {
      ThirdPivot(s, best, rule, n);
    }
  }

  lemma RowsOfSwap(a: seq<seq<real>>, i: nat)
    requires Square(a, 3) && i < 3
    ensures var s, j, k := Swapped(a, 0, i), a[(i + 1) % 3], a[(i + 2) % 3];
      && Square(s, 3) && s[0] == a[i] && ((s[1] == j && s[2] == k) || (s[1] == k && s[2] == j))
      && Abs(Determinant(s[0], s[1], s[2])) == Abs(Determinant(a[0], a[1], a[2]))
  {
    var s := Swapped(a, 0, i);
    DeterminantFlips(a[0], a[1], a[2]);
    DeterminantFlips(a[1], a[0], a[2]);
    DeterminantFlips(a[0], a[2], a[1]);
    DeterminantFlips(a[2], a[0], a[1]);
    hide Determinant;
    assert s == if i == 0 then a else if i == 1 then [a[1], a[0], a[2]] else [a[2], a[1], a[0]];
    DeterminantFlips(a[2], a[0], a[1]);
  }

  /** A three by three matrix is accepted exactly when its lead entry, its larger lead minor and its
    * determinant are large enough in turn.
    */
  lemma MinorsDecide(a: seq<seq<real>>, rule: Rule, n: nat)
    requires n == 3 && Square(a, n) && Sensible(rule)
    ensures Accepts(a, 0, rule, n) <==> GoodMinors(a, rule)
  {
    var i := PivotRow(a, 0, rule.last, n);
    var s := Swapped(a, 0, i);
    RowsOfSwap(a, i);
    hide Minor, Determinant, Accepts, Swapped;
    AcceptsStep(a, 0, i, rule, n);
    if !Negligible(a[i][0], rule) {
      LaterPivots(s, rule, n);
      var minor := Larger(Abs(Minor(s[0], s[1], 1)), Abs(Minor(s[0], s[2], 1)));
      ReachesMagnitude(Determinant(s[0], s[1], s[2]), Determinant(a[0], a[1], a[2]), minor, minor, rule);
    }
  }

  // ---------- two columns ----------
  // Here n must be two, for the same reason.

  function PairDeterminant(u: seq<real>, v: seq<real>): real
    requires |u| == 2 && |v| == 2
  {
    Mul(u[0], v[1]) - Mul(v[0], u[1])
  }

  /** The lead entry, and the determinant next to it, are large enough. */
  ghost predicate GoodPair(a: seq<seq<real>>, rule: Rule)
    requires Square(a, 2)
  {
    var lead := a[PivotRow(a, 0, rule.last, 2)][0];
    !Negligible(lead, rule) && Reaches(PairDeterminant(a[0], a[1]), lead, rule)
  }

  /** A two by two matrix is accepted exactly when its lead entry and its determinant are large enough in turn. */
  lemma PairDecides(a: seq<seq<real>>, rule: Rule, n: nat)
    requires n == 2 && Square(a, n) && Sensible(rule)
    ensures Accepts(a, 0, rule, n) <==> GoodPair(a, rule)
  {
    var i := PivotRow(a, 0, rule.last, n);
    var s := Swapped(a, 0, i);
    assert s == if i == 0 then a else [a[1], a[0]];
    hide Accepts, Swapped;
    AcceptsStep(a, 0, i, rule, n);
    if !Negligible(a[i][0], rule) {
      PairStep(s, rule, n);
      hide Reaches, Mul;
      ReachesMagnitude(PairDeterminant(s[0], s[1]), PairDeterminant(a[0], a[1]), s[0][0], a[i][0], rule);
    }
  }

  lemma PairStep(s: seq<seq<real>>, rule: Rule, n: nat)
    requires n == 2 && Square(s, n) && s[0][0] != 0.0 && Sensible(rule)
    ensures Accepts(Cleared(s, 0, n), 1, rule, n) <==> Reaches(PairDeterminant(s[0], s[1]), s[0][0], rule)
  {
    var c := Cleared(s, 0, n);
    ClearedEntry(s, 0, 1, 1, n);
    StepQuotient(s[0][0], s[0][1], s[1][0], s[1][1]);
    hide Cleared, Accepts, Reaches, Negligible;
    assert Largest(c, 1, 1, rule.last, n);
    AcceptsStep(c, 1, 1, rule, n);
    QuotientReaches(PairDeterminant(s[0], s[1]), s[0][0], rule);
    if !Negligible(c[1][1], rule) {
      AcceptsEnd(Cleared(Swapped(c, 1, 1), 1, n), rule, n);
    }
  }
}
