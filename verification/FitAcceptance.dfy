/** Which windows a fit accepts: a refusal names a combination of the columns that is nearly silent over the window. */
module FitAcceptance {
  import opened Elimination
  import opened LeastSquares
  import opened LinearSystems
  import opened Vectors

  /** The sum of the magnitudes of the first n entries. */
  ghost function Size(x: seq<real>, n: nat): real
    requires n <= |x|
  {
    if n == 0 then 0.0 else Size(x, n - 1) + Abs(x[n - 1])
  }

  /** A combination of the columns, one of them taken whole, whose energy is at most the floor times the size
    * of its coefficients.
    */
  ghost predicate NearlySilent(d: seq<seq<real>>, x: seq<real>, floor: real, w: nat)
    requires forall k :: 0 <= k < |d| ==> w <= |d[k]|
  {
    |x| == w && 1.0 in x && FittedEnergy(d, x, w, |d|) <= Mul(floor, Size(x, w))
  }

  lemma {:induction false} BoundedDot(e: seq<real>, x: seq<real>, bound: real, n: nat)
    requires n <= |e| && n <= |x|
    requires forall i :: 0 <= i < n ==> Abs(e[i]) <= bound
    ensures -Mul(bound, Size(x, n)) <= Dot(e, x, n)
  {
    hide Mul;
    if n == 0 {
      MulAdds(bound, 0.0, 0.0);
    } else {
      BoundedDot(e, x, bound, n - 1);
      MulAdds(bound, Size(x, n - 1), Abs(x[n - 1]));
      BoundedProduct(e[n - 1], x[n - 1], bound);
    }
  }

  lemma BoundedProduct(a: real, b: real, bound: real)
    requires Abs(a) <= bound
    ensures -Mul(bound, Abs(b)) <= Mul(a, b)
  {
    if b >= 0.0 {
      assert (a + bound) * b >= 0.0;
    } else {
      assert (bound - a) * (-b) >= 0.0;
    }
  }

  /** Silence is fitted with an error that is the fitted signal itself. */
  lemma {:induction false} ErrorOfSilence(d: seq<seq<real>>, y: seq<real>, x: seq<real>, w: nat, n: nat)
    requires Design(d, y, w) && n <= |d| && |x| == w && forall k :: 0 <= k < |y| ==> y[k] == 0.0
    ensures SquaredError(d, y, x, w, n) == FittedEnergy(d, x, w, n)
    ensures ErrorAgainst(d, y, x, x, w, n) == -FittedEnergy(d, x, w, n)
  {
    hide Mul, Dot;
    if n > 0 {
      ErrorOfSilence(d, y, x, w, n - 1);
      OppositeProducts(Dot(x, d[n - 1], w));
    }
  }

  lemma OppositeProducts(f: real)
    ensures Mul(0.0 - f, 0.0 - f) == Mul(f, f) && Mul(0.0 - f, f) == -Mul(f, f)
  {
  }

  /** A vector on which the normal matrix is negligible is a nearly silent combination of the columns. */
  lemma NearlyNullIsNearlySilent(d: seq<seq<real>>, x: seq<real>, rule: Rule, w: nat)
    requires forall k :: 0 <= k < |d| ==> w <= |d[k]|
    requires Sensible(rule) && NearlyNull(NormalMatrix(d, w, |d|), x, rule, w)
    ensures NearlySilent(d, x, rule.floor, w)
  {
    var y := Zeros(|d|);
    var e := ErrorVector(d, y, x, w, |d|);
    forall i | 0 <= i < w ensures Abs(e[i]) <= rule.floor {
      NormalRow(d, y, x, i, w, |d|);
      ZeroMoment(d, y, i, |d|);
    }
    hide Mul, NormalMatrix, ErrorVector, NegligibleOn;
    ErrorCombines(d, y, x, x, w, |d|);
    ErrorOfSilence(d, y, x, w, |d|);
    BoundedDot(e, x, rule.floor, w);
  }

  /** A refused window has a nearly silent combination of its columns. */
  lemma RefusedNearlySilent(d: seq<seq<real>>, rule: Rule, w: nat)
    requires forall k :: 0 <= k < |d| ==> w <= |d[k]|
    requires Sensible(rule) && !Accepts(NormalMatrix(d, w, |d|), 0, rule, w)
    ensures exists x :: NearlySilent(d, x, rule.floor, w)
  {
    hide Accepts, NormalMatrix, NearlySilent, NegligibleOn;
    var x := RefusedVector(NormalMatrix(d, w, |d|), 0, rule, w);
    NearlyNullIsNearlySilent(d, x, rule, w);
  }

  // ---------- dominant diagonals ----------

  /** The magnitudes of the first n entries of a row, all but entry k. */
  ghost function Beside(u: seq<real>, k: nat, n: nat): real
    requires n <= |u|
  {
    if n == 0 then 0.0 else Beside(u, k, n - 1) + if n - 1 == k then 0.0 else Abs(u[n - 1])
  }

  /** Every diagonal entry exceeds the rest of its row by more than the floor. */
  ghost predicate Dominant(a: seq<seq<real>>, floor: real, n: nat)
    requires Square(a, n)
  {
    forall i :: 0 <= i < n ==> a[i][i] - Beside(a[i], i, n) > floor
  }

  lemma ProductWithin(a: real, b: real, bound: real)
    requires Abs(b) <= bound
    ensures -Mul(bound, Abs(a)) <= Mul(a, b) <= Mul(bound, Abs(a))
  {
    BoundedProduct(b, a, bound);
    BoundedProduct(b, -a, bound);
    MulCommutes(a, b);
    MulNegates(a, b);
    MulCommutes(-a, b);
  }

  /** Apart from entry k a row's product with x stays within the largest entry of x times the rest of the row. */
  lemma {:induction false} DotBeside(u: seq<real>, x: seq<real>, k: nat, bound: real, n: nat)
    requires n <= |u| && n <= |x| && forall j :: 0 <= j < n ==> Abs(x[j]) <= bound
    ensures var here := if k < n then Mul(u[k], x[k]) else 0.0;
      -Mul(bound, Beside(u, k, n)) <= Dot(u, x, n) - here <= Mul(bound, Beside(u, k, n))
  {
    hide Mul, Abs;
    if n == 0 {
      MulAdds(bound, 0.0, 0.0);
    } else {
      DotBeside(u, x, k, bound, n - 1);
      MulAdds(bound, Beside(u, k, n - 1), Abs(u[n - 1]));
      MulAdds(bound, Beside(u, k, n - 1), 0.0);
      ProductWithin(u[n - 1], x[n - 1], bound);
    }
  }

  lemma {:induction false} LargestEntry(x: seq<real>, n: nat) returns (k: nat)
    requires 0 < n <= |x|
    ensures k < n && forall j :: 0 <= j < n ==> Abs(x[j]) <= Abs(x[k])
  {
    if n == 1 {
      k := 0;
    } else {
      k := LargestEntry(x, n - 1);
      if Abs(x[n - 1]) > Abs(x[k]) {
        k := n - 1;
      }
    }
  }

  lemma DominantRow(v: real, x: real, rest: real, dot: real, floor: real)
    requires floor >= 0.0 && v - rest > floor && Abs(x) >= 1.0
    requires -Mul(Abs(x), rest) <= dot - Mul(v, x) <= Mul(Abs(x), rest)
    ensures Abs(dot) > floor
  {
    var m := Abs(x);
    ProductSigns(m, v - rest - floor);
    ProductSigns(m - 1.0, floor);
    assert m * (v - rest - floor) == m * (v - rest) - m * floor && (m - 1.0) * floor == m * floor - floor;
    assert m * (v - rest) > floor;
    assert x >= 0.0 ==> v * x == v * m;
    assert x < 0.0 ==> v * x == -(v * m);
  }

  /** A matrix with a dominant diagonal is accepted. */
  lemma DominantAccepted(a: seq<seq<real>>, rule: Rule, n: nat)
    requires Square(a, n) && Sensible(rule) && Dominant(a, rule.floor, n)
    ensures Accepts(a, 0, rule, n)
  {
    if !Accepts(a, 0, rule, n) {
      var x := RefusedVector(a, 0, rule, n);
      var one :| 0 <= one < |x| && x[one] == 1.0;
      var k := LargestEntry(x, n);
      DotBeside(a[k], x, k, Abs(x[k]), n);
      DominantRow(a[k][k], x[k], Beside(a[k], k, n), Dot(a[k], x, n), rule.floor);
    }
  }

  lemma {:induction false} NothingBeside(u: seq<real>, k: nat, n: nat)
    requires n <= |u| && forall j :: 0 <= j < n && j != k ==> u[j] == 0.0
    ensures Beside(u, k, n) == 0.0
  {
    if n > 0 {
      NothingBeside(u, k, n - 1);
    }
  }

  /** Orthogonal columns whose energies exceed the floor are accepted. */
  lemma OrthogonalAccepted(d: seq<seq<real>>, rule: Rule, w: nat)
    requires Sensible(rule) && forall k :: 0 <= k < |d| ==> w <= |d[k]|
    requires forall i, j :: 0 <= i < w && 0 <= j < w && i != j ==> Gram(d, i, j, |d|) == 0.0
    requires forall i :: 0 <= i < w ==> Gram(d, i, i, |d|) > rule.floor
    ensures Accepts(NormalMatrix(d, w, |d|), 0, rule, w)
  {
    var g := NormalMatrix(d, w, |d|);
    forall i | 0 <= i < w ensures Beside(g[i], i, w) == 0.0 {
      NothingBeside(g[i], i, w);
    }
    DominantAccepted(g, rule, w);
  }
}
