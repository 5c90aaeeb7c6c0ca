/** A family of windows that the sine fit refuses although their normal equations have exactly one solution. */
module SlowSine {
  import opened ComponentFit
  import opened Elimination
  import opened GaussJordan
  import opened LeastSquares
  import opened LinearSystems
  import opened Minors
  import opened SineFit
  import opened ToneRecovery
  import opened Vectors
  import opened WholePeriods

  /** A sine never exceeds its angle. */
  ghost predicate Slow(t: Waves) {
    Rotates(t) && forall x: real :: Abs(t.sin(x)) <= Abs(x)
  }

  /** A tone so slow that n frames of it stay below the pivot floor. */
  ghost predicate TooSlow(t: Waves, omega: real, n: nat) {
    0.0 < omega && 2.0 * omega < t.tau && n >= 3 && Bound(omega, n) < PIVOT_FLOOR_3X3
  }

  ghost function Bound(omega: real, n: nat): real {
    Mul(omega, (n * n) as real)
  }

  // ---------- refused ----------

  lemma UnitBounds(s: real, c: real)
    requires Mul(s, s) + Mul(c, c) == 1.0
    ensures Abs(s) <= 1.0 && Abs(c) <= 1.0
  {
    SquareSign(s);
    SquareSign(c);
    UnitSquare(s);
    UnitSquare(c);
  }

  lemma UnitSquare(v: real)
    requires Mul(v, v) <= 1.0
    ensures Abs(v) <= 1.0
  {
    assert v > 1.0 ==> v * v > v;
    assert v < -1.0 ==> (-v) * (-v) > -v;
  }

  lemma ProductBelow(a: real, b: real)
    requires Abs(a) <= 1.0
    ensures Abs(Mul(a, b)) <= Abs(b)
  {
    AbsProduct(a, b);
    var p, q := Abs(a), Abs(b);
    ProductSigns(1.0 - p, q);
    assert (1.0 - p) * q == q - p * q;
  }

  lemma BoundGrows(omega: real, k: nat)
    requires omega > 0.0
    ensures Bound(omega, k) + omega * k as real <= Bound(omega, k + 1)
  {
    var x := k as real;
    assert ((k + 1) * (k + 1)) as real == x * x + 2.0 * x + 1.0;
    assert (k * k) as real == x * x;
    assert omega * (x + 1.0) >= 0.0;
    assert omega * (x * x + 2.0 * x + 1.0) == omega * (x * x) + omega * x + omega * (x + 1.0);
  }

  /** What one frame adds to an inner product with the sine column is at most the frame's angle. */
  lemma SineEntrySmall(t: Waves, omega: real, r: nat, frame: nat)
    requires Slow(t) && omega > 0.0 && r < 3
    ensures var row := SineBasis(t, omega, frame); Abs(Mul(row[r], row[0])) <= omega * frame as real
  {
    var angle := omega * frame as real;
    assert angle >= 0.0;
    assert OnUnitCircle(t, angle) && Abs(t.sin(angle)) <= Abs(angle);
    UnitBounds(t.sin(angle), t.cos(angle));
    hide Slow, Mul;
    ProductBelow(SineBasis(t, omega, frame)[r], t.sin(angle));
  }

  /** Every inner product with the sine column stays below the bound. */
  lemma {:induction false} SineColumnSmall(t: Waves, omega: real, n: nat, r: nat, k: nat)
    requires Slow(t) && omega > 0.0 && r < 3 && k <= n
    ensures Abs(Gram(SineDesign(t, omega, 0, n), r, 0, k)) <= Bound(omega, k)
  {
    hide Slow, SineBasis;
    var d := SineDesign(t, omega, 0, n);
    if k == 0 {
      MulCommutes(omega, 0.0);
      MulUnits(omega);
    } else {
      SineColumnSmall(t, omega, n, r, k - 1);
      SineEntrySmall(t, omega, r, k - 1);
      BoundGrows(omega, k - 1);
      hide Mul, Bound;
      assert d[k - 1] == SineBasis(t, omega, 0 + (k - 1));
      assert Gram(d, r, 0, k) == Gram(d, r, 0, k - 1) + Mul(d[k - 1][r], d[k - 1][0]);
    }
  }

  // ---------- regular ----------

  /** A combination that vanishes on the first three frames is nothing. */
  lemma OnlyNothing(a: real, b: real, c: real, s1: real, c1: real, s2: real, c2: real)
    requires b + c == 0.0 && Mul(a, s1) + Mul(b, c1) + c == 0.0 && Mul(a, s2) + Mul(b, c2) + c == 0.0
    requires s2 == Mul(s1, c1) + Mul(c1, s1) && c2 == Mul(c1, c1) - Mul(s1, s1) && Mul(s1, s1) + Mul(c1, c1) == 1.0
    requires c1 != 1.0 && s1 != 0.0
    ensures a == 0.0 && b == 0.0 && c == 0.0
  {
    assert a * s1 == b * (1.0 - c1);
    assert a * s2 == 2.0 * c1 * (b * (1.0 - c1)) by {
      assert a * (s1 * c1 + c1 * s1) == 2.0 * c1 * (a * s1);
    }
    assert b * (1.0 - c2) == 2.0 * b * (1.0 - c1) * (1.0 + c1) by {
      assert 1.0 - c2 == 2.0 * (1.0 - c1) * (1.0 + c1);
    }
    assert Mul(b, 1.0 - c1) == 0.0;
    ZeroProduct(b, 1.0 - c1);
    ZeroProduct(a, s1);
  }

  lemma SineStarts(t: Waves, omega: real)
    requires Rotates(t) && 0.0 < omega && 2.0 * omega < t.tau
    ensures t.cos(omega) != 1.0 && t.sin(omega) != 0.0
  {
    var s, c := t.sin(omega), t.cos(omega);
    assert AddsCosines(t, omega, omega) && OnUnitCircle(t, omega) && omega + omega == 2.0 * omega;
    assert s == 0.0 ==> Mul(c, c) == 1.0 && Mul(s, s) == 0.0;
    assert s == 0.0 ==> t.cos(2.0 * omega) == 1.0;
  }

  lemma SineDoubles(t: Waves, omega: real)
    requires Rotates(t)
    ensures t.sin(0.0) == 0.0 && t.cos(0.0) == 1.0
    ensures t.sin(omega + omega) == Mul(t.sin(omega), t.cos(omega)) + Mul(t.cos(omega), t.sin(omega))
    ensures t.cos(omega + omega) == Mul(t.cos(omega), t.cos(omega)) - Mul(t.sin(omega), t.sin(omega))
    ensures Mul(t.sin(omega), t.sin(omega)) + Mul(t.cos(omega), t.cos(omega)) == 1.0
  {
    assert AddsAngles(t, omega, omega) && AddsCosines(t, omega, omega) && OnUnitCircle(t, omega);
  }

  /** The normal equations of every such window have exactly one solution. */
  lemma SlowRegular(t: Waves, omega: real, n: nat)
    requires Rotates(t) && 0.0 < omega && 2.0 * omega < t.tau && n >= 3
    ensures !Singular(NormalMatrix(SineDesign(t, omega, 0, n), 3, n), 3)
  {
    var d := SineDesign(t, omega, 0, n);
    forall e | |e| == 3 && Solves(NormalMatrix(d, 3, n), Zeros(3), e, 3) ensures e == Zeros(3) {
      NullVectorIsSilent(d, e, 3);
      SilentStart(t, omega, e, d);
    }
  }

  lemma SilentStart(t: Waves, omega: real, e: seq<real>, d: seq<seq<real>>)
    requires Rotates(t) && 0.0 < omega && 2.0 * omega < t.tau && |e| == 3 && |d| >= 3
    requires forall k :: 0 <= k < |d| ==> d[k] == SineBasis(t, omega, 0 + k) && Dot(e, d[k], 3) == 0.0
    ensures e == Zeros(3)
  {
    hide Rotates, SineBasis, Dot, Mul;
    SineStarts(t, omega);
    SineDoubles(t, omega);
    assert d[0] == SineBasis(t, omega, 0 + 0) && d[1] == SineBasis(t, omega, 0 + 1);
    assert d[2] == SineBasis(t, omega, 0 + 2);
    RowValue(t, omega, 0, 0.0, e);
    RowValue(t, omega, 1, omega, e);
    RowValue(t, omega, 2, omega + omega, e);
    MulByOne(e[1]);
    MulCommutes(e[0], 0.0);
    MulUnits(e[0]);
    OnlyNothing(e[0], e[1], e[2], t.sin(omega), t.cos(omega), t.sin(omega + omega), t.cos(omega + omega));
  }

  lemma RowValue(t: Waves, omega: real, frame: nat, angle: real, e: seq<real>)
    requires |e| == 3 && angle == omega * frame as real
    ensures Dot(e, SineBasis(t, omega, 0 + frame), 3) == Mul(e[0], t.sin(angle)) + Mul(e[1], t.cos(angle)) + e[2]
  {
    hide Mul;
    DotThree(e, SineBasis(t, omega, frame));
    MulByOne(e[2]);
  }

  /** A window of a very slow tone is refused although its normal equations have exactly one solution. */
  lemma SlowToneRefused(t: Waves, omega: real, n: nat)
    requires Slow(t) && TooSlow(t, omega, n)
    ensures !Singular(NormalMatrix(SineDesign(t, omega, 0, n), 3, n), 3)
    ensures !SineFittable(t, omega, 0, n)
  {
    SlowRegular(t, omega, n);
    var d := SineDesign(t, omega, 0, n);
    var g := NormalMatrix(d, 3, n);
    forall r | 0 <= r < 3 ensures Negligible(g[r][0], TWIN_RULE) {
      SineColumnSmall(t, omega, n, r, n);
    }
    hide Minor, Determinant, Reaches, Negligible, NormalMatrix, SineDesign;
  }
}
