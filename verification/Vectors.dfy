/** Finite sums of products over the reals, in the left-to-right order the fitting loops accumulate them. */
module Vectors {

  /** The product of two reals, named so that a proof about sums can set its nonlinearity aside. */
  function Mul(a: real, b: real): real {
    a * b
  }

  function Abs(v: real): real {
    if v < 0.0 then -v else v
  }

  function Larger(a: real, b: real): real {
    if a < b then b else a
  }

  lemma MulLinear(s: real, a: real, t: real, b: real, v: real)
    ensures Mul(Mul(s, a) + Mul(t, b), v) == Mul(s, Mul(a, v)) + Mul(t, Mul(b, v))
  {
    assert (s * a + t * b) * v == s * (a * v) + t * (b * v);
  }

  lemma MulAdds(s: real, a: real, b: real)
    ensures Mul(s, a + b) == Mul(s, a) + Mul(s, b)
    ensures Mul(s, a - b) == Mul(s, a) - Mul(s, b)
    ensures Mul(s, 0.0) == 0.0
  {
  }

  lemma MulCommutes(a: real, b: real)
    ensures Mul(a, b) == Mul(b, a)
  {
  }

  lemma MulUnits(a: real)
    ensures Mul(0.0, a) == 0.0 && Mul(1.0, a) == a && Mul(-1.0, a) == -a
    ensures Mul(a, 0.0) == 0.0
  {
  }

  lemma MulNegates(a: real, b: real)
    ensures Mul(-a, b) == -Mul(a, b)
  {
  }

  /** The square of a difference. */
  lemma MulDifference(r: real, g: real)
    ensures Mul(r - g, r - g) == Mul(r, r) - 2.0 * Mul(r, g) + Mul(g, g)
  {
  }

  lemma SquareSign(f: real)
    ensures Mul(f, f) >= 0.0
  {
  }

  lemma ProductSigns(a: real, b: real)
    requires a >= 0.0 && b >= 0.0
    ensures a * b >= 0.0
    ensures a > 0.0 && b > 0.0 ==> a * b > 0.0
  {
  }

  lemma PositiveFactor(a: real, b: real)
    requires b > 0.0
    ensures a * b > 0.0 ==> a > 0.0
    ensures a * b >= 0.0 ==> a >= 0.0
  {
    var p := a * b;
    assert a == p / b;
  }

  lemma UnitQuotient(v: real)
    requires v != 0.0
    ensures v / v == 1.0
  {
  }

  lemma ZeroProduct(a: real, b: real)
    requires Mul(a, b) == 0.0
    ensures a == 0.0 || b == 0.0
  {
    if a != 0.0 {
      assert b == (a * b) / a;
    }
  }

  /** The sum of u[k] * v[k] over the first n positions. */
  function Dot(u: seq<real>, v: seq<real>, n: nat): real
    requires n <= |u| && n <= |v|
  {
    if n == 0 then 0.0 else Dot(u, v, n - 1) + Mul(u[n - 1], v[n - 1])
  }

  function Zeros(n: nat): seq<real> {
    seq(n, _ => 0.0)
  }

  /** Dot is linear in its first argument. */
  lemma {:induction false} DotLinear(w: seq<real>, s: real, u: seq<real>, t: real, p: seq<real>, v: seq<real>, n: nat)
    requires n <= |w| && n <= |u| && n <= |p| && n <= |v|
    requires forall k :: 0 <= k < n ==> w[k] == Mul(s, u[k]) + Mul(t, p[k])
    ensures Dot(w, v, n) == Mul(s, Dot(u, v, n)) + Mul(t, Dot(p, v, n))
  {
    hide Mul;
    if n == 0 {
      MulAdds(s, 0.0, 0.0);
      MulAdds(t, 0.0, 0.0);
    } else {
      DotLinear(w, s, u, t, p, v, n - 1);
      MulLinear(s, u[n - 1], t, p[n - 1], v[n - 1]);
      MulAdds(s, Dot(u, v, n - 1), Mul(u[n - 1], v[n - 1]));
      MulAdds(t, Dot(p, v, n - 1), Mul(p[n - 1], v[n - 1]));
    }
  }

  lemma {:induction false} DotCommutes(u: seq<real>, v: seq<real>, n: nat)
    requires n <= |u| && n <= |v|
    ensures Dot(u, v, n) == Dot(v, u, n)
  {
    hide Mul;
    if n > 0 {
      DotCommutes(u, v, n - 1);
      MulCommutes(u[n - 1], v[n - 1]);
    }
  }

  /** The zero vector is orthogonal to everything. */
  lemma {:induction false} DotZero(u: seq<real>, v: seq<real>, n: nat)
    requires n <= |u| && n <= |v|
    requires forall k :: 0 <= k < n ==> u[k] == 0.0
    ensures Dot(u, v, n) == 0.0
  {
    if n > 0 {
      DotZero(u, v, n - 1);
      MulUnits(v[n - 1]);
    }
  }

  /** A row that agrees with a unit vector on its first n positions picks out one entry. */
  lemma {:induction false} DotUnitPrefix(u: seq<real>, v: seq<real>, r: nat, n: nat)
    requires n <= |u| && n <= |v|
    requires forall k :: 0 <= k < n ==> u[k] == if k == r then 1.0 else 0.0
    ensures Dot(u, v, n) == if r < n then v[r] else 0.0
  {
    if n > 0 {
      DotUnitPrefix(u, v, r, n - 1);
      MulUnits(v[n - 1]);
    }
  }

  /** Positions where v vanishes contribute nothing. */
  lemma {:induction false} DotZeroTail(u: seq<real>, v: seq<real>, m: nat, n: nat)
    requires m <= n <= |u| && n <= |v|
    requires forall k :: m <= k < n ==> v[k] == 0.0
    ensures Dot(u, v, n) == Dot(u, v, m)
  {
    if n > m {
      DotZeroTail(u, v, m, n - 1);
      MulUnits(u[n - 1]);
    }
  }
}
