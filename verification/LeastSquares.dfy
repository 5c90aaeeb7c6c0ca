/** Linear least squares over a window of rows: the normal equations characterise the best fit. */
module LeastSquares {
  import opened LinearSystems
  import opened Vectors

  /** Every row of the design holds at least w basis values, one row for each observation. */
  ghost predicate Design(d: seq<seq<real>>, y: seq<real>, w: nat) {
    |d| == |y| && forall k :: 0 <= k < |d| ==> w <= |d[k]|
  }

  /** Inner product of basis columns i and j over the first n rows. */
  ghost function Gram(d: seq<seq<real>>, i: nat, j: nat, n: nat): real
    requires n <= |d| && forall k :: 0 <= k < n ==> i < |d[k]| && j < |d[k]|
  {
    if n == 0 then 0.0 else Gram(d, i, j, n - 1) + Mul(d[n - 1][i], d[n - 1][j])
  }

  /** Inner product of basis column i and the observations over the first n rows. */
  ghost function Moment(d: seq<seq<real>>, y: seq<real>, i: nat, n: nat): real
    requires n <= |d| && n <= |y| && forall k :: 0 <= k < n ==> i < |d[k]|
  {
    if n == 0 then 0.0 else Moment(d, y, i, n - 1) + Mul(d[n - 1][i], y[n - 1])
  }

  /** Sum of squared errors of the fit with coefficients c over the first n rows. */
  ghost function SquaredError(d: seq<seq<real>>, y: seq<real>, c: seq<real>, w: nat, n: nat): real
    requires Design(d, y, w) && n <= |d| && w <= |c|
  {
    if n == 0 then 0.0 else
      var e := y[n - 1] - Dot(c, d[n - 1], w);
      SquaredError(d, y, c, w, n - 1) + Mul(e, e)
  }

  /** Energy of the fitted signal over the first n rows. */
  ghost function FittedEnergy(d: seq<seq<real>>, c: seq<real>, w: nat, n: nat): real
    requires n <= |d| && w <= |c| && forall k :: 0 <= k < n ==> w <= |d[k]|
  {
    if n == 0 then 0.0 else
      var f := Dot(c, d[n - 1], w);
      FittedEnergy(d, c, w, n - 1) + Mul(f, f)
  }

  /** Inner product of basis column i and the error of the fit. */
  ghost function ErrorAlong(d: seq<seq<real>>, y: seq<real>, c: seq<real>, i: nat, w: nat, n: nat): real
    requires Design(d, y, w) && n <= |d| && w <= |c| && i < w
  {
    if n == 0 then 0.0 else
      ErrorAlong(d, y, c, i, w, n - 1) + Mul(d[n - 1][i], y[n - 1] - Dot(c, d[n - 1], w))
  }

  /** Inner product of the error of the fit c and the signal fitted by e. */
  ghost function ErrorAgainst(d: seq<seq<real>>, y: seq<real>, c: seq<real>, e: seq<real>, w: nat, n: nat): real
    requires Design(d, y, w) && n <= |d| && w <= |c| && w <= |e|
  {
    if n == 0 then 0.0 else
      ErrorAgainst(d, y, c, e, w, n - 1) + Mul(y[n - 1] - Dot(c, d[n - 1], w), Dot(e, d[n - 1], w))
  }

  ghost function NormalMatrix(d: seq<seq<real>>, w: nat, n: nat): (g: seq<seq<real>>)
    requires n <= |d| && forall k :: 0 <= k < n ==> w <= |d[k]|
    ensures Square(g, w)
  {
    seq(w, i requires 0 <= i < w => seq(w, j requires 0 <= j < w => Gram(d, i, j, n)))
  }

  ghost function NormalVector(d: seq<seq<real>>, y: seq<real>, w: nat, n: nat): (b: seq<real>)
    requires n <= |d| && n <= |y| && forall k :: 0 <= k < n ==> w <= |d[k]|
    ensures |b| == w
  {
    seq(w, i requires 0 <= i < w => Moment(d, y, i, n))
  }

  /** Every other coefficient vector fits strictly worse. */
  ghost predicate StrictlyBest(d: seq<seq<real>>, y: seq<real>, c: seq<real>, w: nat)
    requires Design(d, y, w) && |c| == w
  {
    forall c' :: |c'| == w && c' != c ==> SquaredError(d, y, c, w, |d|) < SquaredError(d, y, c', w, |d|)
  }

  /** The error is orthogonal to every basis column. */
  ghost predicate Orthogonal(d: seq<seq<real>>, y: seq<real>, c: seq<real>, w: nat)
    requires Design(d, y, w) && |c| == w
  {
    forall i :: 0 <= i < w ==> ErrorAlong(d, y, c, i, w, |d|) == 0.0
  }

  /** Sum of squares of the first n observations. */
  ghost function Energy(y: seq<real>, n: nat): real
    requires n <= |y|
  {
    Dot(y, y, n)
  }

  // ---------- the normal equations ----------

  lemma {:induction false} GramSymmetric(d: seq<seq<real>>, i: nat, j: nat, n: nat)
    requires n <= |d| && forall k :: 0 <= k < n ==> i < |d[k]| && j < |d[k]|
    ensures Gram(d, i, j, n) == Gram(d, j, i, n)
  {
    if n > 0 {
      GramSymmetric(d, i, j, n - 1);
    }
  }

  /** One more row adds its own product to row i of the normal matrix applied to c. */
  lemma NormalRowStep(d: seq<seq<real>>, c: seq<real>, i: nat, w: nat, n: nat)
    requires 0 < n <= |d| && |c| == w && i < w && forall k :: 0 <= k < n ==> w <= |d[k]|
    ensures Dot(NormalMatrix(d, w, n)[i], c, w)
         == Dot(NormalMatrix(d, w, n - 1)[i], c, w) + Mul(d[n - 1][i], Dot(c, d[n - 1], w))
  {
    hide Mul;
    var g, h, p := NormalMatrix(d, w, n)[i], NormalMatrix(d, w, n - 1)[i], d[n - 1];
    forall k | 0 <= k < w ensures g[k] == Mul(1.0, h[k]) + Mul(p[i], p[k]) {
      MulUnits(h[k]);
    }
    DotLinear(g, 1.0, h, p[i], p, c, w);
    MulUnits(Dot(h, c, w));
    DotCommutes(p, c, w);
  }

  /** Row i of the normal matrix applied to c, subtracted from entry i of the normal vector, is the error along
    * column i.
    */
  lemma {:induction false} NormalRow(d: seq<seq<real>>, y: seq<real>, c: seq<real>, i: nat, w: nat, n: nat)
    requires Design(d, y, w) && n <= |d| && |c| == w && i < w
    ensures ErrorAlong(d, y, c, i, w, n) == Moment(d, y, i, n) - Dot(NormalMatrix(d, w, n)[i], c, w)
  {
    hide Mul;
    if n == 0 {
      DotZero(NormalMatrix(d, w, n)[i], c, w);
    } else {
      NormalRow(d, y, c, i, w, n - 1);
      NormalRowStep(d, c, i, w, n);
      MulAdds(d[n - 1][i], y[n - 1], Dot(c, d[n - 1], w));
    }
  }

  /** The errors along the first w columns, as a vector. */
  ghost function ErrorVector(d: seq<seq<real>>, y: seq<real>, c: seq<real>, w: nat, n: nat): (v: seq<real>)
    requires Design(d, y, w) && n <= |d| && w <= |c|
    ensures |v| == w
  {
    seq(w, i requires 0 <= i < w => ErrorAlong(d, y, c, i, w, n))
  }

  lemma ErrorVectorStep(d: seq<seq<real>>, y: seq<real>, c: seq<real>, e: seq<real>, w: nat, n: nat, r: real)
    requires Design(d, y, w) && 0 < n <= |d| && |c| == w && |e| == w
    requires r == y[n - 1] - Dot(c, d[n - 1], w)
    ensures Dot(ErrorVector(d, y, c, w, n), e, w)
         == Dot(ErrorVector(d, y, c, w, n - 1), e, w) + Mul(r, Dot(e, d[n - 1], w))
  {
    hide Mul;
    var g, h, p := ErrorVector(d, y, c, w, n), ErrorVector(d, y, c, w, n - 1), d[n - 1];
    forall i | 0 <= i < w ensures g[i] == Mul(1.0, h[i]) + Mul(r, p[i]) {
      MulUnits(h[i]);
      MulCommutes(p[i], r);
    }
    DotLinear(g, 1.0, h, r, p, e, w);
    MulUnits(Dot(h, e, w));
    DotCommutes(p, e, w);
  }

  /** The error against any fitted signal is the combination of the errors along the columns. */
  lemma {:induction false} ErrorCombines(d: seq<seq<real>>, y: seq<real>, c: seq<real>, e: seq<real>, w: nat, n: nat)
    requires Design(d, y, w) && n <= |d| && |c| == w && |e| == w
    ensures ErrorAgainst(d, y, c, e, w, n) == Dot(ErrorVector(d, y, c, w, n), e, w)
  {
    hide Mul;
    if n == 0 {
      DotZero(ErrorVector(d, y, c, w, n), e, w);
    } else {
      ErrorCombines(d, y, c, e, w, n - 1);
      ErrorVectorStep(d, y, c, e, w, n, y[n - 1] - Dot(c, d[n - 1], w));
    }
  }

  lemma OrthogonalAgainst(d: seq<seq<real>>, y: seq<real>, c: seq<real>, e: seq<real>, w: nat)
    requires Design(d, y, w) && |c| == w && |e| == w
    requires Orthogonal(d, y, c, w)
    ensures ErrorAgainst(d, y, c, e, w, |d|) == 0.0
  {
    ErrorCombines(d, y, c, e, w, |d|);
    DotZero(ErrorVector(d, y, c, w, |d|), e, w);
  }

  // ---------- Pythagoras ----------

  lemma {:induction false} ShiftedError(d: seq<seq<real>>, y: seq<real>, c: seq<real>, c': seq<real>, e: seq<real>,
      w: nat, n: nat)
    requires Design(d, y, w) && n <= |d| && |c| == w && |c'| == w && |e| == w
    requires forall i :: 0 <= i < w ==> e[i] == c'[i] - c[i]
    ensures SquaredError(d, y, c', w, n)
         == SquaredError(d, y, c, w, n) - 2.0 * ErrorAgainst(d, y, c, e, w, n) + FittedEnergy(d, e, w, n)
  {
    hide Mul;
    if n > 0 {
      ShiftedError(d, y, c, c', e, w, n - 1);
      DotSubtracts(e, c', c, d[n - 1], w);
      MulDifference(y[n - 1] - Dot(c, d[n - 1], w), Dot(e, d[n - 1], w));
    }
  }

  lemma DotSubtracts(e: seq<real>, c': seq<real>, c: seq<real>, p: seq<real>, w: nat)
    requires |c| == w && |c'| == w && |e| == w && w <= |p|
    requires forall i :: 0 <= i < w ==> e[i] == c'[i] - c[i]
    ensures Dot(e, p, w) == Dot(c', p, w) - Dot(c, p, w)
  {
    hide Mul;
    forall i | 0 <= i < w ensures e[i] == Mul(1.0, c'[i]) + Mul(-1.0, c[i]) {
      MulUnits(c'[i]);
      MulUnits(c[i]);
    }
    DotLinear(e, 1.0, c', -1.0, c, p, w);
    MulUnits(Dot(c', p, w));
    MulUnits(Dot(c, p, w));
  }

  /** Signal energy, squared error and fitted energy. */
  lemma {:induction false} EnergyExpansion(d: seq<seq<real>>, y: seq<real>, c: seq<real>, w: nat, n: nat)
    requires Design(d, y, w) && n <= |d| && |c| == w
    ensures Energy(y, n)
      == SquaredError(d, y, c, w, n) + 2.0 * ErrorAgainst(d, y, c, c, w, n) + FittedEnergy(d, c, w, n)
  {
    hide Mul;
    if n > 0 {
      EnergyExpansion(d, y, c, w, n - 1);
      var f := Dot(c, d[n - 1], w);
      SplitSquare(y[n - 1], f);
    }
  }

  lemma SplitSquare(v: real, f: real)
    ensures Mul(v, v) == Mul(v - f, v - f) + 2.0 * Mul(v - f, f) + Mul(f, f)
  {
  }

  lemma {:induction false} FittedEnergyNonNegative(d: seq<seq<real>>, e: seq<real>, w: nat, n: nat)
    requires n <= |d| && w <= |e| && forall k :: 0 <= k < n ==> w <= |d[k]|
    ensures FittedEnergy(d, e, w, n) >= 0.0
    ensures FittedEnergy(d, e, w, n) == 0.0 ==> forall k :: 0 <= k < n ==> Dot(e, d[k], w) == 0.0
  {
    hide Mul;
    if n > 0 {
      FittedEnergyNonNegative(d, e, w, n - 1);
      var f := Dot(e, d[n - 1], w);
      SquareSign(f);
      if FittedEnergy(d, e, w, n) == 0.0 {
        ZeroProduct(f, f);
      }
    }
  }

  /** A coefficient vector that fits silence exactly is in the null space of the normal matrix. */
  lemma SilentCoefficients(d: seq<seq<real>>, e: seq<real>, w: nat)
    requires |e| == w && forall k :: 0 <= k < |d| ==> w <= |d[k]| && Dot(e, d[k], w) == 0.0
    ensures Solves(NormalMatrix(d, w, |d|), Zeros(w), e, w)
  {
    var y := Zeros(|d|);
    forall i | 0 <= i < w ensures Dot(NormalMatrix(d, w, |d|)[i], e, w) == 0.0 {
      NormalRow(d, y, e, i, w, |d|);
      SilentSums(d, y, e, i, w, |d|);
    }
  }

  lemma {:induction false} SilentSums(d: seq<seq<real>>, y: seq<real>, e: seq<real>, i: nat, w: nat, n: nat)
    requires Design(d, y, w) && n <= |d| && |e| == w && i < w
    requires forall k :: 0 <= k < n ==> y[k] == 0.0 && Dot(e, d[k], w) == 0.0
    ensures ErrorAlong(d, y, e, i, w, n) == 0.0 && Moment(d, y, i, n) == 0.0
  {
    if n > 0 {
      SilentSums(d, y, e, i, w, n - 1);
      MulUnits(d[n - 1][i]);
    }
  }

  /** The unique solution of nonsingular normal equations is the unique least-squares fit. */
  lemma NormalEquationsFit(d: seq<seq<real>>, y: seq<real>, c: seq<real>, w: nat)
    requires Design(d, y, w) && |c| == w
    requires Solves(NormalMatrix(d, w, |d|), NormalVector(d, y, w, |d|), c, w)
    requires !Singular(NormalMatrix(d, w, |d|), w)
    ensures Orthogonal(d, y, c, w)
    ensures StrictlyBest(d, y, c, w)
    ensures Energy(y, |y|) == FittedEnergy(d, c, w, |d|) + SquaredError(d, y, c, w, |d|)
  {
    forall i | 0 <= i < w ensures ErrorAlong(d, y, c, i, w, |d|) == 0.0 {
      NormalRow(d, y, c, i, w, |d|);
    }
    OrthogonalAgainst(d, y, c, c, w);
    EnergyExpansion(d, y, c, w, |d|);
    forall c' | |c'| == w && c' != c
      ensures SquaredError(d, y, c, w, |d|) < SquaredError(d, y, c', w, |d|)
    {
      Worse(d, y, c, c', w);
    }
  }

  lemma Worse(d: seq<seq<real>>, y: seq<real>, c: seq<real>, c': seq<real>, w: nat)
    requires Design(d, y, w) && |c| == w && |c'| == w && c != c'
    requires Orthogonal(d, y, c, w)
    requires !Singular(NormalMatrix(d, w, |d|), w)
    ensures SquaredError(d, y, c, w, |d|) < SquaredError(d, y, c', w, |d|)
  {
    var e := seq(w, i requires 0 <= i < w => c'[i] - c[i]);
    var k :| 0 <= k < w && c[k] != c'[k];
    assert e[k] != Zeros(w)[k];
    ShiftedError(d, y, c, c', e, w, |d|);
    OrthogonalAgainst(d, y, c, e, w);
    FittedEnergyNonNegative(d, e, w, |d|);
    if FittedEnergy(d, e, w, |d|) == 0.0 {
      SilentCoefficients(d, e, w);
    }
  }

  /** With a singular normal matrix no coefficient vector is the unique best fit, whatever was observed. */
  lemma SingularHasNoBestFit(d: seq<seq<real>>, y: seq<real>, c: seq<real>, w: nat)
    requires Design(d, y, w) && |c| == w
    requires Singular(NormalMatrix(d, w, |d|), w)
    ensures !StrictlyBest(d, y, c, w)
  {
    var e :| e != Zeros(w) && Solves(NormalMatrix(d, w, |d|), Zeros(w), e, w);
    NullVectorIsSilent(d, e, w);
    var c' := seq(w, i requires 0 <= i < w => c[i] + e[i]);
    var k :| 0 <= k < w && e[k] != 0.0;
    assert c'[k] != c[k];
    SilentShift(d, y, c, c', e, w, |d|);
  }

  lemma NullVectorIsSilent(d: seq<seq<real>>, e: seq<real>, w: nat)
    requires |e| == w && forall k :: 0 <= k < |d| ==> w <= |d[k]|
    requires Solves(NormalMatrix(d, w, |d|), Zeros(w), e, w)
    ensures forall k :: 0 <= k < |d| ==> Dot(e, d[k], w) == 0.0
  {
    var y := Zeros(|d|);
    forall i | 0 <= i < w ensures ErrorAlong(d, y, e, i, w, |d|) == 0.0 {
      NormalRow(d, y, e, i, w, |d|);
      ZeroMoment(d, y, i, |d|);
    }
    OrthogonalAgainst(d, y, e, e, w);
    EnergyExpansion(d, y, e, w, |d|);
    DotZero(y, y, |d|);
    FittedEnergyNonNegative(d, e, w, |d|);
    SquaredErrorNonNegative(d, y, e, w, |d|);
  }

  lemma {:induction false} ZeroMoment(d: seq<seq<real>>, y: seq<real>, i: nat, n: nat)
    requires n <= |d| && n <= |y| && forall k :: 0 <= k < n ==> i < |d[k]| && y[k] == 0.0
    ensures Moment(d, y, i, n) == 0.0
  {
    if n > 0 {
      ZeroMoment(d, y, i, n - 1);
      MulUnits(d[n - 1][i]);
    }
  }

  lemma {:induction false} SquaredErrorNonNegative(d: seq<seq<real>>, y: seq<real>, c: seq<real>, w: nat, n: nat)
    requires Design(d, y, w) && n <= |d| && w <= |c|
    ensures SquaredError(d, y, c, w, n) >= 0.0
  {
    if n > 0 {
      SquaredErrorNonNegative(d, y, c, w, n - 1);
      SquareSign(y[n - 1] - Dot(c, d[n - 1], w));
    }
  }

  lemma {:induction false} SilentShift(d: seq<seq<real>>, y: seq<real>, c: seq<real>, c': seq<real>, e: seq<real>,
      w: nat, n: nat)
    requires Design(d, y, w) && n <= |d| && |c| == w && |c'| == w && |e| == w
    requires forall i :: 0 <= i < w ==> c'[i] == c[i] + e[i]
    requires forall k :: 0 <= k < n ==> Dot(e, d[k], w) == 0.0
    ensures SquaredError(d, y, c', w, n) == SquaredError(d, y, c, w, n)
  {
    if n > 0 {
      SilentShift(d, y, c, c', e, w, n - 1);
      DotSubtracts(e, c', c, d[n - 1], w);
    }
  }

  /** Observations that are an exact combination of the columns are recovered, with no error left over. */
  lemma ExactRecovery(d: seq<seq<real>>, y: seq<real>, c: seq<real>, truth: seq<real>, w: nat)
    requires Design(d, y, w) && |c| == w && |truth| == w
    requires StrictlyBest(d, y, c, w)
    requires forall k :: 0 <= k < |d| ==> y[k] == Dot(truth, d[k], w)
    ensures c == truth && SquaredError(d, y, c, w, |d|) == 0.0
  {
    ExactFit(d, y, truth, w, |d|);
    SquaredErrorNonNegative(d, y, c, w, |d|);
  }

  lemma {:induction false} ExactFit(d: seq<seq<real>>, y: seq<real>, c: seq<real>, w: nat, n: nat)
    requires Design(d, y, w) && n <= |d| && w <= |c|
    requires forall k :: 0 <= k < n ==> y[k] == Dot(c, d[k], w)
    ensures SquaredError(d, y, c, w, n) == 0.0
  {
    if n > 0 {
      ExactFit(d, y, c, w, n - 1);
      MulUnits(0.0);
    }
  }
}
