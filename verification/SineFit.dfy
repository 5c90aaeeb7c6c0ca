/** The three-column sine fit of the quality measurements: sine, cosine and a constant, without compensation. */
module SineFit {
  import opened ComponentFit
  import opened Elimination
  import opened FitAcceptance
  import opened GaussJordan
  import opened LeastSquares
  import opened Minors
  import opened Outcomes
  import opened Vectors
  import opened WindowFit

  datatype SineFit = SineFit(amplitudeSquared: real, residualMeanSquare: real)

  function SineBasis(t: Waves, omega: real, n: nat): (basis: seq<real>)
    ensures |basis| == 3
  {
    [t.sin(omega * n as real), t.cos(omega * n as real), 1.0]
  }

  /** The frames the fit may use once `skip` have been passed over. */
  function TakenFrames(length: nat, skip: nat, take: nat): nat {
    var start := if skip <= length then skip else length;
    if take <= length - start then take else length - start
  }

  /** As many frames are taken as were asked for and are left. */
  lemma TakenLargest(length: nat, skip: nat, take: nat, n: nat)
    ensures n <= TakenFrames(length, skip, take) <==> n <= take && (n == 0 || skip + n <= length)
  {
  }

  /** Adds one row's products with column values to a row of the matrix. */
  method AddRow(matrix: array2<real>, basis: seq<real>, row: nat, ghost term: (nat, nat) -> real)
    requires matrix.Length0 == 3 && matrix.Length1 == 3 && |basis| == 3 && row < 3
    requires forall c: nat :: c < 3 ==> term(row, c) == Mul(basis[row], basis[c])
    modifies matrix
    ensures forall c: nat :: c < 3 ==> matrix[row, c] == old(matrix[row, c]) + term(row, c)
    ensures forall r, c :: 0 <= r < 3 && 0 <= c < 3 && r != row ==> matrix[r, c] == old(matrix[r, c])
  {
    for col := 0 to 3
      invariant forall c: nat :: c < col ==> matrix[row, c] == old(matrix[row, c]) + term(row, c)
      invariant forall c :: col <= c < 3 ==> matrix[row, c] == old(matrix[row, c])
      invariant forall r, c :: 0 <= r < 3 && 0 <= c < 3 && r != row ==> matrix[r, c] == old(matrix[r, c])
    {
      matrix[row, col] := matrix[row, col] + basis[row] * basis[col];
    }
  }

  method AddFrame(matrix: array2<real>, rhs: array<real>, basis: seq<real>, sample: real,
                  ghost term: (nat, nat) -> real, ghost weight: nat -> real)
    requires matrix.Length0 == 3 && matrix.Length1 == 3 && rhs.Length == 3 && |basis| == 3
    requires forall r: nat, c: nat :: r < 3 && c < 3 ==> term(r, c) == Mul(basis[r], basis[c])
    requires forall r: nat :: r < 3 ==> weight(r) == Mul(basis[r], sample)
    modifies matrix, rhs
    ensures forall r: nat, c: nat :: r < 3 && c < 3 ==> matrix[r, c] == old(matrix[r, c]) + term(r, c)
    ensures forall r: nat :: r < 3 ==> rhs[r] == old(rhs[r]) + weight(r)
  {
    for row := 0 to 3
      invariant forall r: nat :: r < row ==> rhs[r] == old(rhs[r]) + weight(r)
      invariant forall r :: row <= r < 3 ==> rhs[r] == old(rhs[r])
      invariant forall r: nat, c: nat :: r < row && c < 3 ==> matrix[r, c] == old(matrix[r, c]) + term(r, c)
      invariant forall r, c :: row <= r < 3 && 0 <= c < 3 ==> matrix[r, c] == old(matrix[r, c])
    {
      rhs[row] := rhs[row] + basis[row] * sample;
      AddRow(matrix, basis, row, term);
    }
  }

  /** The products one frame contributes, and the normal equations they complete. */
  lemma FrameProducts(d: seq<seq<real>>, y: seq<real>, k: nat) returns (term: (nat, nat) -> real, weight: nat -> real)
    requires Design(d, y, 3) && k < |d| && |d[k]| == 3
    ensures forall r: nat, c: nat :: r < 3 && c < 3 ==> term(r, c) == Mul(d[k][r], d[k][c])
    ensures forall r: nat :: r < 3 ==> weight(r) == Mul(d[k][r], y[k])
    ensures forall r: nat, c: nat :: r < 3 && c < 3 ==> Gram(d, r, c, k + 1) == Gram(d, r, c, k) + term(r, c)
    ensures forall r: nat :: r < 3 ==> Moment(d, y, r, k + 1) == Moment(d, y, r, k) + weight(r)
  {
    hide Mul;
    var basis, sample := d[k], y[k];
    term := (r: nat, c: nat) => if r < 3 && c < 3 then Mul(basis[r], basis[c]) else 0.0;
    weight := (r: nat) => if r < 3 then Mul(basis[r], sample) else 0.0;
  }

  /** The rows and samples of the fitted stretch. */
  ghost predicate Stretch(t: Waves, omega: real, samples: seq<real>, start: nat, d: seq<seq<real>>, y: seq<real>)
    requires start + |y| <= |samples|
  {
    && |d| == |y| && y == samples[start..start + |y|]
    && forall k :: 0 <= k < |d| ==> d[k] == SineBasis(t, omega, start + k)
  }

  /** The arrays hold the normal equations of the first k rows. */
  ghost predicate Holds(matrix: array2<real>, rhs: array<real>, d: seq<seq<real>>, y: seq<real>, k: nat)
    requires matrix.Length0 == 3 && matrix.Length1 == 3 && rhs.Length == 3 && Design(d, y, 3) && k <= |d|
    reads matrix, rhs
  {
    && (forall r: nat, c: nat :: r < 3 && c < 3 ==> matrix[r, c] == Gram(d, r, c, k))
    && (forall r: nat :: r < 3 ==> rhs[r] == Moment(d, y, r, k))
  }

  method AddLocal(matrix: array2<real>, rhs: array<real>, basis: seq<real>, sample: real,
                  ghost d: seq<seq<real>>, ghost y: seq<real>, ghost k: nat)
    requires matrix.Length0 == 3 && matrix.Length1 == 3 && rhs.Length == 3 && Design(d, y, 3) && k < |d|
    requires |basis| == 3 && d[k] == basis && y[k] == sample && Holds(matrix, rhs, d, y, k)
    modifies matrix, rhs
    ensures Holds(matrix, rhs, d, y, k + 1)
  {
    hide Mul, Gram, Moment;
    ghost var term, weight := FrameProducts(d, y, k);
    AddFrame(matrix, rhs, basis, sample, term, weight);
  }

  method Accumulate(t: Waves, omega: real, samples: seq<real>, start: nat, count: nat, ghost d: seq<seq<real>>,
      ghost y: seq<real>)
    returns (matrix: array2<real>, rhs: array<real>)
    requires count == |y| && start + count <= |samples| && Stretch(t, omega, samples, start, d, y)
    ensures fresh(matrix) && fresh(rhs) && matrix.Length0 == 3 && matrix.Length1 == 3 && rhs.Length == 3
    ensures Grid(matrix, 3) == NormalMatrix(d, 3, count) && rhs[..3] == NormalVector(d, y, 3, count)
  {
    matrix := new real[3, 3]((_, _) => 0.0);
    rhs := new real[3](_ => 0.0);
    hide SineBasis, Mul;
    AddStretch(t, omega, samples, start, count, d, y, matrix, rhs);
    hide Gram, Moment;
    assert forall r :: 0 <= r < 3 ==> Grid(matrix, 3)[r] == NormalMatrix(d, 3, count)[r];
  }

  method AddStretch(t: Waves, omega: real, samples: seq<real>, start: nat, count: nat, ghost d: seq<seq<real>>,
      ghost y: seq<real>, matrix: array2<real>, rhs: array<real>)
    requires count == |y| && start + count <= |samples| && Stretch(t, omega, samples, start, d, y)
    requires matrix.Length0 == 3 && matrix.Length1 == 3 && rhs.Length == 3 && Holds(matrix, rhs, d, y, 0)
    modifies matrix, rhs
    ensures Holds(matrix, rhs, d, y, count)
  {
    hide SineBasis, Mul, Gram, Moment, Holds;
    for local := 0 to count
      invariant Holds(matrix, rhs, d, y, local)
    {
      var basis := SineBasis(t, omega, start + local);
      AddLocal(matrix, rhs, basis, samples[start + local], d, y, local);
    }
  }

  method Residual(t: Waves, omega: real, samples: seq<real>, start: nat, count: nat, coeffs: seq<real>,
                  ghost d: seq<seq<real>>, ghost y: seq<real>) returns (residualSum: real)
    requires count == |y| && start + count <= |samples| && Stretch(t, omega, samples, start, d, y) && |coeffs| == 3
    ensures residualSum == SquaredError(d, y, coeffs, 3, count)
  {
    residualSum := 0.0;
    for local := 0 to count
      invariant residualSum == SquaredError(d, y, coeffs, 3, local)
    {
      var basis := SineBasis(t, omega, start + local);
      var fitted := coeffs[0] * basis[0] + coeffs[1] * basis[1] + coeffs[2];
      ThreeTerms(coeffs, basis);
      var error := samples[start + local] - fitted;
      assert d[local] == basis && y[local] == samples[start + local];
      residualSum := residualSum + error * error;
      NextError(d, y, coeffs, local, error);
    }
  }

  lemma ThreeTerms(c: seq<real>, basis: seq<real>)
    requires |c| == 3 && |basis| == 3 && basis[2] == 1.0
    ensures Dot(c, basis, 3) == c[0] * basis[0] + c[1] * basis[1] + c[2]
  {
    DotThree(c, basis);
  }

  lemma NextError(d: seq<seq<real>>, y: seq<real>, c: seq<real>, k: nat, error: real)
    requires Design(d, y, 3) && k < |d| && |c| == 3
    requires error == y[k] - Dot(c, d[k], 3)
    ensures SquaredError(d, y, c, 3, k + 1) == SquaredError(d, y, c, 3, k) + error * error
  {
  }

  /** What a mean over n observations sums to. */
  ghost function Total(n: nat, mean: real): real {
    n as real * mean
  }

  /** The rows that the frames from start present to the fit. */
  ghost function SineDesign(t: Waves, omega: real, start: nat, count: nat): (d: seq<seq<real>>)
    ensures |d| == count && forall k :: 0 <= k < count ==> d[k] == SineBasis(t, omega, start + k)
    ensures forall k :: 0 <= k < count ==> |d[k]| == 3
  {
    seq(count, k requires 0 <= k < count => SineBasis(t, omega, start + k))
  }

  /** The minors of the normal matrix are large enough; the samples have no say in it. */
  ghost predicate SineFittable(t: Waves, omega: real, start: nat, count: nat) {
    GoodMinors(NormalMatrix(SineDesign(t, omega, start, count), 3, count), TWIN_RULE)
  }

  /** Some combination of sine, cosine and constant is nearly silent over the window. */
  ghost predicate SineDependent(t: Waves, omega: real, start: nat, count: nat) {
    exists x :: NearlySilent(SineDesign(t, omega, start, count), x, PIVOT_FLOOR_3X3, 3)
  }

  lemma RefusedSine(t: Waves, omega: real, start: nat, count: nat)
    requires exists x :: NearlyNull(NormalMatrix(SineDesign(t, omega, start, count), 3, count), x, TWIN_RULE, 3)
    ensures SineDependent(t, omega, start, count)
  {
    hide NearlyNull, NearlySilent, NormalMatrix;
    var d := SineDesign(t, omega, start, count);
    var x :| NearlyNull(NormalMatrix(d, 3, count), x, TWIN_RULE, 3);
    NearlyNullIsNearlySilent(d, x, TWIN_RULE, 3);
  }

  /** Least squares of sine, cosine and constant: the published figures belong to the unique best fit. */
  method FitSine(t: Waves, samples: seq<real>, omega: real, skip: nat, take: nat)
    returns (r: Result<SineFit, string>, ghost coeffs: seq<real>, ghost d: seq<seq<real>>, ghost y: seq<real>)
    ensures TakenFrames(|samples|, skip, take) < 32 ==> r.Err?
    ensures TakenFrames(|samples|, skip, take) >= 32 ==>
      var frames := TakenFrames(|samples|, skip, take);
      (r.Ok? <==> SineFittable(t, omega, skip, frames)) && (r.Err? ==> SineDependent(t, omega, skip, frames))
    ensures r.Ok? ==>
      && |y| == TakenFrames(|samples|, skip, take) >= MINIMUM_FRAMES
      && skip + |y| <= |samples|
      && Stretch(t, omega, samples, skip, d, y)
      && |coeffs| == 3
      && BestFit(d, y, coeffs, Total(|y|, r.value.residualMeanSquare))
      && r.value.amplitudeSquared == Mul(coeffs[0], coeffs[0]) + Mul(coeffs[1], coeffs[1])
  {
    coeffs, d, y := [], [], [];
    if samples == [] {
      return Err("cannot fit sine on an empty sample buffer"), coeffs, d, y;
    }
    var start := if skip <= |samples| then skip else |samples|;
    var count := TakenFrames(|samples|, skip, take);
    if count < MINIMUM_FRAMES {
      return Err("not enough samples for sine fit"), coeffs, d, y;
    }
    hide Mul, SineBasis, BestFit, MeanOf, Total, GoodMinors, NearlyNull, SineDependent;
    d := SineDesign(t, omega, start, count);
    y := samples[start..start + count];
    var matrix, rhs := Accumulate(t, omega, samples, start, count, d, y);
    var solved := Solve3x3(matrix, rhs);
    assert solved.Ok? <==> SineFittable(t, omega, start, count);
    if solved.Err? {
      RefusedSine(t, omega, start, count);
      return Err(solved.error), coeffs, d, y;
    }
    var answer := solved.value;
    coeffs := answer;
    NormalEquationsFit(d, y, answer, 3);
    var residualSum := Residual(t, omega, samples, start, count, answer, d, y);
    var mean := MeanOf(residualSum, count);
    MeanOfBack(residualSum, count);
    r := Ok(SineFit(Mul(answer[0], answer[0]) + Mul(answer[1], answer[1]), mean));
    assert BestFit(d, y, coeffs, residualSum) by { BestFitIntro(d, y, coeffs, residualSum); }
  }

  lemma BestFitIntro(d: seq<seq<real>>, y: seq<real>, c: seq<real>, energy: real)
    requires Design(d, y, |c|) && Orthogonal(d, y, c, |c|) && StrictlyBest(d, y, c, |c|)
    requires Energy(y, |y|) == FittedEnergy(d, c, |c|, |d|) + SquaredError(d, y, c, |c|, |d|)
    requires energy == SquaredError(d, y, c, |c|, |d|)
    ensures BestFit(d, y, c, energy)
  {
  }

  lemma MeanOfBack(energy: real, n: nat)
    requires n > 0
    ensures Total(n, MeanOf(energy, n)) == energy
  {
  }
}
