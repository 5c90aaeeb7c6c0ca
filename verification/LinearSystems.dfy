/** Square systems of linear equations, the row operations of Gauss-Jordan elimination, and what they preserve. */
module LinearSystems {
  import opened Vectors

  /** The first n entries of the first n rows exist. */
  ghost predicate Square(a: seq<seq<real>>, n: nat) {
    |a| == n && forall r :: 0 <= r < n ==> |a[r]| == n
  }

  /** x satisfies all n equations a x = b. */
  ghost predicate Solves(a: seq<seq<real>>, b: seq<real>, x: seq<real>, n: nat)
    requires Square(a, n) && |b| == n
  {
    |x| == n && forall r :: 0 <= r < n ==> Dot(a[r], x, n) == b[r]
  }

  ghost predicate SameSolutions(a: seq<seq<real>>, b: seq<real>, a': seq<seq<real>>, b': seq<real>, n: nat)
    requires Square(a, n) && Square(a', n) && |b| == n && |b'| == n
  {
    forall x :: Solves(a, b, x, n) <==> Solves(a', b', x, n)
  }

  /** The two systems have the same solutions and the two matrices the same null space. */
  ghost predicate Equivalent(a: seq<seq<real>>, b: seq<real>, a': seq<seq<real>>, b': seq<real>, n: nat)
    requires Square(a, n) && Square(a', n) && |b| == n && |b'| == n
  {
    SameSolutions(a, b, a', b', n) && SameSolutions(a, Zeros(n), a', Zeros(n), n)
  }

  /** x is the one and only solution. */
  ghost predicate UniqueSolution(a: seq<seq<real>>, b: seq<real>, x: seq<real>, n: nat)
    requires Square(a, n) && |b| == n
  {
    Solves(a, b, x, n) && forall y :: Solves(a, b, y, n) ==> y == x
  }

  /** Some non-zero vector is mapped to zero. */
  ghost predicate Singular(a: seq<seq<real>>, n: nat)
    requires Square(a, n)
  {
    exists v :: v != Zeros(n) && Solves(a, Zeros(n), v, n)
  }

  // ---------- the three row operations ----------

  ghost predicate Exchanged(a: seq<seq<real>>, b: seq<real>, a': seq<seq<real>>, b': seq<real>, p: nat, q: nat, n: nat)
    requires Square(a, n) && Square(a', n) && |b| == n && |b'| == n && p < n && q < n
  {
    && a'[p] == a[q] && b'[p] == b[q]
    && a'[q] == a[p] && b'[q] == b[p]
    && forall r :: 0 <= r < n && r != p && r != q ==> a'[r] == a[r] && b'[r] == b[r]
  }

  lemma ExchangeKeeps(a: seq<seq<real>>, b: seq<real>, a': seq<seq<real>>, b': seq<real>, p: nat, q: nat, n: nat)
    requires Square(a, n) && Square(a', n) && |b| == n && |b'| == n && p < n && q < n
    requires Exchanged(a, b, a', b', p, q, n)
    ensures SameSolutions(a, b, a', b', n)
  {
    forall x | |x| == n
      ensures Solves(a, b, x, n) <==> Solves(a', b', x, n)
    {
      if Solves(a, b, x, n) {
        forall r | 0 <= r < n ensures Dot(a'[r], x, n) == b'[r] {
          assert Dot(a[p], x, n) == b[p] && Dot(a[q], x, n) == b[q] && Dot(a[r], x, n) == b[r];
        }
      }
      if Solves(a', b', x, n) {
        forall r | 0 <= r < n ensures Dot(a[r], x, n) == b[r] {
          assert Dot(a'[p], x, n) == b'[p] && Dot(a'[q], x, n) == b'[q] && Dot(a'[r], x, n) == b'[r];
        }
      }
    }
  }

  ghost predicate Scaled(a: seq<seq<real>>, b: seq<real>, a': seq<seq<real>>, b': seq<real>, p: nat, s: real, n: nat)
    requires Square(a, n) && Square(a', n) && |b| == n && |b'| == n && p < n && s != 0.0
  {
    && (forall c :: 0 <= c < n ==> a'[p][c] == a[p][c] / s) && b'[p] == b[p] / s
    && forall r :: 0 <= r < n && r != p ==> a'[r] == a[r] && b'[r] == b[r]
  }

  lemma ScaleKeeps(a: seq<seq<real>>, b: seq<real>, a': seq<seq<real>>, b': seq<real>, p: nat, s: real, n: nat)
    requires Square(a, n) && Square(a', n) && |b| == n && |b'| == n && p < n && s != 0.0
    requires Scaled(a, b, a', b', p, s, n)
    ensures SameSolutions(a, b, a', b', n)
  {
    hide Mul;
    forall x | |x| == n
      ensures Solves(a, b, x, n) <==> Solves(a', b', x, n)
    {
      ScaledRow(a[p], b[p], a'[p], b'[p], s, x, n);
    }
  }

  lemma ScaledRow(u: seq<real>, b: real, u': seq<real>, b': real, s: real, x: seq<real>, n: nat)
    requires |u| == n && |u'| == n && |x| == n && s != 0.0
    requires (forall c :: 0 <= c < n ==> u'[c] == u[c] / s) && b' == b / s
    ensures Dot(u, x, n) == b <==> Dot(u', x, n) == b'
  {
    hide Mul;
    forall c | 0 <= c < n ensures u[c] == Mul(s, u'[c]) + Mul(0.0, u'[c]) {
      DivideBack(u[c], s);
      MulUnits(u'[c]);
    }
    DotLinear(u, s, u', 0.0, u', x, n);
    MulUnits(Dot(u', x, n));
    DivideBack(b, s);
    CancelFactor(s, Dot(u', x, n), b');
  }

  lemma DivideBack(v: real, s: real)
    requires s != 0.0
    ensures Mul(s, v / s) == v
  {
  }

  lemma CancelFactor(s: real, u: real, v: real)
    requires s != 0.0
    ensures Mul(s, u) == Mul(s, v) <==> u == v
  {
    if Mul(s, u) == Mul(s, v) {
      MulAdds(s, u, v);
      ZeroProduct(s, u - v);
    }
  }

  /** Row q loses f times row p. */
  ghost predicate Reduced(a: seq<seq<real>>, b: seq<real>, a': seq<seq<real>>, b': seq<real>, p: nat, q: nat,
      f: real, n: nat)
    requires Square(a, n) && Square(a', n) && |b| == n && |b'| == n && p < n && q < n && p != q
  {
    && (forall c :: 0 <= c < n ==> a'[q][c] == a[q][c] - Mul(f, a[p][c])) && b'[q] == b[q] - Mul(f, b[p])
    && forall r :: 0 <= r < n && r != q ==> a'[r] == a[r] && b'[r] == b[r]
  }

  lemma ReduceKeeps(a: seq<seq<real>>, b: seq<real>, a': seq<seq<real>>, b': seq<real>, p: nat, q: nat, f: real, n: nat)
    requires Square(a, n) && Square(a', n) && |b| == n && |b'| == n && p < n && q < n && p != q
    requires Reduced(a, b, a', b', p, q, f, n)
    ensures SameSolutions(a, b, a', b', n)
  {
    hide Mul;
    assert a'[p] == a[p] && b'[p] == b[p];
    forall x | |x| == n
      ensures Solves(a, b, x, n) <==> Solves(a', b', x, n)
    {
      ReducedRow(a[p], b[p], a[q], b[q], a'[q], b'[q], f, x, n);
      assert Solves(a', b', x, n) ==> Dot(a'[p], x, n) == b'[p];
    }
  }

  lemma ReducedRow(u: seq<real>, b: real, v: seq<real>, c: real, v': seq<real>, c': real, f: real, x: seq<real>, n: nat)
    requires |u| == n && |v| == n && |v'| == n && |x| == n
    requires (forall k :: 0 <= k < n ==> v'[k] == v[k] - Mul(f, u[k])) && c' == c - Mul(f, b)
    ensures Dot(u, x, n) == b ==> (Dot(v, x, n) == c <==> Dot(v', x, n) == c')
  {
    hide Mul;
    forall k | 0 <= k < n ensures v'[k] == Mul(1.0, v[k]) + Mul(-f, u[k]) {
      MulUnits(v[k]);
      MulNegates(f, u[k]);
    }
    DotLinear(v', 1.0, v, -f, u, x, n);
    MulUnits(Dot(v, x, n));
    MulNegates(f, Dot(u, x, n));
  }

  lemma ChainSolutions(a: seq<seq<real>>, b: seq<real>, a': seq<seq<real>>, b': seq<real>, a'': seq<seq<real>>,
      b'': seq<real>, n: nat)
    requires Square(a, n) && Square(a', n) && Square(a'', n) && |b| == n && |b'| == n && |b''| == n
    requires Equivalent(a, b, a', b', n) && Equivalent(a', b', a'', b'', n)
    ensures Equivalent(a, b, a'', b'', n)
  {
  }

  // ---------- reading off the answer ----------

  /** The first p columns are those of the identity. */
  ghost predicate ReducedColumns(a: seq<seq<real>>, p: nat, n: nat)
    requires Square(a, n) && p <= n
  {
    forall r, c :: 0 <= r < n && 0 <= c < p ==> a[r][c] == if r == c then 1.0 else 0.0
  }

  /** Once every column is reduced, the right-hand side is the unique solution and the matrix is nonsingular. */
  lemma IdentitySolved(a: seq<seq<real>>, b: seq<real>, a0: seq<seq<real>>, b0: seq<real>, n: nat)
    requires Square(a, n) && Square(a0, n) && |b| == n && |b0| == n
    requires Equivalent(a0, b0, a, b, n)
    requires ReducedColumns(a, n, n)
    ensures UniqueSolution(a0, b0, b, n) && !Singular(a0, n)
  {
    forall x | |x| == n
      ensures Solves(a, b, x, n) <==> x == b
      ensures Solves(a, Zeros(n), x, n) <==> x == Zeros(n)
    {
      forall r | 0 <= r < n ensures Dot(a[r], x, n) == x[r] {
        DotUnitPrefix(a[r], x, r, n);
      }
    }
  }
}
