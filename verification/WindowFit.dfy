/** Compensated normal equations over a window of frames, their solution, and what the fit leaves over. */
module WindowFit {
  import opened Elimination
  import opened FitAcceptance
  import opened GaussJordan
  import opened LeastSquares
  import opened LinearSystems
  import opened Outcomes
  import opened Vectors

  const MAX_COLUMNS := 5
  const MINIMUM_FRAMES := 32
  const FLOOR_PER_FRAME := 0.00000000000001

  // ---------- compensated accumulation ----------

  /** A running total with its compensation term; a copied value in the source, so a value here. */
  datatype Sum = Sum(value: real, correction: real) {
    /** Without rounding the compensation that is carried forward is always zero. */
    function Add(v: real): (s: Sum)
      ensures s.correction == 0.0
      ensures s.value == value + v - correction
      ensures correction == 0.0 ==> s == Sum(value + v, 0.0)
    {
      var corrected := v - correction;
      var next := value + corrected;
      Sum(next, (next - value) - corrected)
    }
  }

  const EMPTY_SUM := Sum(0.0, 0.0)

  // ---------- normal equations ----------

  /** The basis closure and the sample closure of a window are defined on all its frames. */
  ghost predicate Covers(basisAt: nat -> seq<real>, sampleAt: nat --> real, start: nat, count: nat) {
    && (forall frame: nat :: start <= frame < start + count ==> |basisAt(frame)| == MAX_COLUMNS)
    && (forall frame: nat :: start <= frame < start + count ==> sampleAt.requires(frame))
  }

  /** The rows and observations that the window presents to the fit. */
  ghost predicate Presents(basisAt: nat -> seq<real>, sampleAt: nat --> real, start: nat, d: seq<seq<real>>,
      y: seq<real>)
    requires Covers(basisAt, sampleAt, start, |y|)
  {
    && Design(d, y, MAX_COLUMNS)
    && forall k: nat :: k < |y| ==> d[k] == basisAt(start + k) && y[k] == sampleAt(start + k)
  }

  /** term and weight name the products that one frame contributes to the normal matrix and the right-hand side. */
  ghost predicate FrameTerms(basis: seq<real>, sample: real, width: nat, term: (nat, nat) -> real, weight: nat -> real)
    requires width <= |basis|
  {
    && (forall r: nat, c: nat :: r <= c < width ==> term(r, c) == Mul(basis[r], basis[c]))
    && (forall r: nat :: r < width ==> weight(r) == Mul(basis[r], sample))
  }

  /** Adds one frame to row `row` of the upper triangle. */
  method AccumulateRow(matrix: array2<Sum>, basis: seq<real>, row: nat, width: nat, ghost term: (nat, nat) -> real)
    requires matrix.Length0 == MAX_COLUMNS && matrix.Length1 == MAX_COLUMNS
    requires |basis| == MAX_COLUMNS && row < width <= MAX_COLUMNS
    requires forall c: nat :: row <= c < width ==> term(row, c) == Mul(basis[row], basis[c])
    modifies matrix
    ensures forall c :: row <= c < width ==> matrix[row, c] == old(matrix[row, c]).Add(term(row, c))
    ensures forall r, c :: 0 <= r < MAX_COLUMNS && 0 <= c < MAX_COLUMNS && r != row ==>
      matrix[r, c] == old(matrix[r, c])
  {
    for col := row to width
      invariant forall c :: row <= c < col ==> matrix[row, c] == old(matrix[row, c]).Add(term(row, c))
      invariant forall c :: col <= c < MAX_COLUMNS ==> matrix[row, c] == old(matrix[row, c])
      invariant forall r, c :: 0 <= r < MAX_COLUMNS && 0 <= c < MAX_COLUMNS && r != row ==>
        matrix[r, c] == old(matrix[r, c])
    {
      matrix[row, col] := matrix[row, col].Add(basis[row] * basis[col]);
    }
  }

  /** Adds one frame to the upper triangle of the normal matrix and to the right-hand side. */
  method Accumulate(matrix: array2<Sum>, rhs: array<Sum>, basis: seq<real>, sample: real, width: nat,
                    ghost term: (nat, nat) -> real, ghost weight: nat -> real)
    requires matrix.Length0 == MAX_COLUMNS && matrix.Length1 == MAX_COLUMNS && rhs.Length == MAX_COLUMNS
    requires |basis| == MAX_COLUMNS && width <= MAX_COLUMNS
    requires FrameTerms(basis, sample, width, term, weight)
    modifies matrix, rhs
    ensures forall r, c :: 0 <= r <= c < width ==> matrix[r, c] == old(matrix[r, c]).Add(term(r, c))
    ensures forall r :: 0 <= r < width ==> rhs[r] == old(rhs[r]).Add(weight(r))
    ensures forall r :: width <= r < MAX_COLUMNS ==> rhs[r] == old(rhs[r])
  {
    for row := 0 to width
      invariant forall r :: 0 <= r < row ==> rhs[r] == old(rhs[r]).Add(weight(r))
      invariant forall r :: row <= r < MAX_COLUMNS ==> rhs[r] == old(rhs[r])
      invariant forall r, c :: 0 <= r < row && r <= c < width ==> matrix[r, c] == old(matrix[r, c]).Add(term(r, c))
      invariant forall r, c :: row <= r < MAX_COLUMNS && 0 <= c < MAX_COLUMNS ==> matrix[r, c] == old(matrix[r, c])
    {
      rhs[row] := rhs[row].Add(basis[row] * sample);
      AccumulateRow(matrix, basis, row, width, term);
    }
  }

  lemma GramStep(d: seq<seq<real>>, r: nat, c: nat, k: nat, p: real)
    requires k < |d| && forall j :: 0 <= j <= k ==> r < |d[j]| && c < |d[j]|
    requires p == Mul(d[k][r], d[k][c])
    ensures Gram(d, r, c, k + 1) == Gram(d, r, c, k) + p
  {
  }

  lemma MomentStep(d: seq<seq<real>>, y: seq<real>, r: nat, k: nat, p: real)
    requires k < |d| && k < |y| && forall j :: 0 <= j <= k ==> r < |d[j]|
    requires p == Mul(d[k][r], y[k])
    ensures Moment(d, y, r, k + 1) == Moment(d, y, r, k) + p
  {
  }

  /** The products one frame contributes, as functions of the indices. */
  lemma NameTerms(basis: seq<real>, sample: real, width: nat) returns (term: (nat, nat) -> real, weight: nat -> real)
    requires width <= |basis|
    ensures FrameTerms(basis, sample, width, term, weight)
  {
    term := (r: nat, c: nat) => if r < |basis| && c < |basis| then Mul(basis[r], basis[c]) else 0.0;
    weight := (r: nat) => if r < |basis| then Mul(basis[r], sample) else 0.0;
  }

  /** One more row adds exactly that frame's products to the normal equations. */
  lemma FrameStep(d: seq<seq<real>>, y: seq<real>, k: nat, width: nat, term: (nat, nat) -> real, weight: nat -> real)
    requires Design(d, y, MAX_COLUMNS) && k < |d| && width <= MAX_COLUMNS
    requires FrameTerms(d[k], y[k], width, term, weight)
    ensures forall r: nat, c: nat :: r <= c < width ==> Gram(d, r, c, k + 1) == Gram(d, r, c, k) + term(r, c)
    ensures forall r: nat :: r < width ==> Moment(d, y, r, k + 1) == Moment(d, y, r, k) + weight(r)
  {
    hide Mul;
    forall r: nat, c: nat | r <= c < width
      ensures Gram(d, r, c, k + 1) == Gram(d, r, c, k) + term(r, c)
    {
      GramStep(d, r, c, k, term(r, c));
    }
    forall r: nat | r < width
      ensures Moment(d, y, r, k + 1) == Moment(d, y, r, k) + weight(r)
    {
      MomentStep(d, y, r, k, weight(r));
    }
  }

  /** The running sums are the normal equations of the first k rows. */
  ghost predicate Sums(matrix: array2<Sum>, sums: array<Sum>, d: seq<seq<real>>, y: seq<real>, width: nat, k: nat)
    requires matrix.Length0 == MAX_COLUMNS && matrix.Length1 == MAX_COLUMNS && sums.Length == MAX_COLUMNS
    requires Design(d, y, MAX_COLUMNS) && k <= |d| && width <= MAX_COLUMNS
    reads matrix, sums
  {
    && (forall r, c :: 0 <= r <= c < width ==> matrix[r, c] == Sum(Gram(d, r, c, k), 0.0))
    && (forall r :: 0 <= r < width ==> sums[r] == Sum(Moment(d, y, r, k), 0.0))
  }

  /** One more frame. */
  method AccumulateFrame(matrix: array2<Sum>, sums: array<Sum>, basis: seq<real>, sample: real, width: nat,
                         ghost d: seq<seq<real>>, ghost y: seq<real>, ghost k: nat)
    requires matrix.Length0 == MAX_COLUMNS && matrix.Length1 == MAX_COLUMNS && sums.Length == MAX_COLUMNS
    requires Design(d, y, MAX_COLUMNS) && k < |d| && width <= MAX_COLUMNS
    requires |basis| == MAX_COLUMNS && basis == d[k] && sample == y[k]
    requires Sums(matrix, sums, d, y, width, k)
    modifies matrix, sums
    ensures Sums(matrix, sums, d, y, width, k + 1)
  {
    hide Mul, Gram, Moment;
    ghost var term, weight := NameTerms(basis, sample, width);
    FrameStep(d, y, k, width, term, weight);
    Accumulate(matrix, sums, basis, sample, width, term, weight);
  }

  method AccumulateWindow(basisAt: nat -> seq<real>, sampleAt: nat --> real, start: nat, count: nat, width: nat,
                          matrix: array2<Sum>, sums: array<Sum>, ghost d: seq<seq<real>>, ghost y: seq<real>)
    requires Covers(basisAt, sampleAt, start, count) && |y| == count && Presents(basisAt, sampleAt, start, d, y)
    requires width <= MAX_COLUMNS
    requires matrix.Length0 == MAX_COLUMNS && matrix.Length1 == MAX_COLUMNS && sums.Length == MAX_COLUMNS
    requires forall r, c :: 0 <= r <= c < width ==> matrix[r, c] == EMPTY_SUM
    requires forall r :: 0 <= r < width ==> sums[r] == EMPTY_SUM
    modifies matrix, sums
    ensures forall r, c :: 0 <= r <= c < width ==> matrix[r, c] == Sum(Gram(d, r, c, count), 0.0)
    ensures forall r :: 0 <= r < width ==> sums[r] == Sum(Moment(d, y, r, count), 0.0)
  {
    assert Sums(matrix, sums, d, y, width, 0);
    for k := 0 to count
      invariant Sums(matrix, sums, d, y, width, k)
    {
      hide Sums;
      AccumulateFrame(matrix, sums, basisAt(start + k), sampleAt(start + k), width, d, y, k);
    }
  }

  /** Copies the accumulated upper triangle onto both halves. */
  method Mirror(matrix: array2<Sum>, width: nat) returns (normal: array2<real>)
    requires matrix.Length0 == MAX_COLUMNS && matrix.Length1 == MAX_COLUMNS && width <= MAX_COLUMNS
    ensures fresh(normal) && normal.Length0 == MAX_COLUMNS && normal.Length1 == MAX_COLUMNS
    ensures forall r, c :: 0 <= r <= c < width ==>
      normal[r, c] == matrix[r, c].value && normal[c, r] == matrix[r, c].value
  {
    normal := new real[MAX_COLUMNS, MAX_COLUMNS]((_, _) => 0.0);
    for row := 0 to width
      invariant forall r, c :: 0 <= r < row && r <= c < width ==>
        normal[r, c] == matrix[r, c].value && normal[c, r] == matrix[r, c].value
    {
      for col := row to width
        invariant forall r, c :: 0 <= r <= c < width && (r < row || (r == row && c < col)) ==>
          normal[r, c] == matrix[r, c].value && normal[c, r] == matrix[r, c].value
      {
        normal[row, col] := matrix[row, col].value;
        normal[col, row] := normal[row, col];
      }
    }
  }

  /** Accumulates the normal equations of the window. */
  method Normalise(basisAt: nat -> seq<real>, sampleAt: nat --> real, start: nat, count: nat, width: nat,
                   ghost d: seq<seq<real>>, ghost y: seq<real>)
    returns (normal: array2<real>, rhs: array<real>)
    requires Covers(basisAt, sampleAt, start, count) && |y| == count && Presents(basisAt, sampleAt, start, d, y)
    requires width <= MAX_COLUMNS
    ensures fresh(normal) && fresh(rhs) && Fits(normal, rhs, width) && rhs.Length == MAX_COLUMNS
    ensures Grid(normal, width) == NormalMatrix(d, width, count)
    ensures rhs[..width] == NormalVector(d, y, width, count)
  {
    var matrix := new Sum[MAX_COLUMNS, MAX_COLUMNS]((_, _) => EMPTY_SUM);
    var sums := new Sum[MAX_COLUMNS](_ => EMPTY_SUM);
    AccumulateWindow(basisAt, sampleAt, start, count, width, matrix, sums, d, y);
    normal := Mirror(matrix, width);
    rhs := new real[MAX_COLUMNS](i requires 0 <= i < MAX_COLUMNS reads sums => sums[i].value);
    forall r | 0 <= r < width
      ensures Grid(normal, width)[r] == NormalMatrix(d, width, count)[r]
    {
      forall c | 0 <= c < width
        ensures Grid(normal, width)[r][c] == NormalMatrix(d, width, count)[r][c]
      {
        GramSymmetric(d, r, c, count);
      }
    }
  }

  // ---------- solution and residual ----------

  /** Sum of squared errors of the fitted coefficients over the window. */
  method ResidualEnergy(basisAt: nat -> seq<real>, sampleAt: nat --> real, start: nat, count: nat, width: nat,
      coeffs: seq<real>, ghost d: seq<seq<real>>, ghost y: seq<real>)
    returns (energy: real)
    requires Covers(basisAt, sampleAt, start, count) && |y| == count && Presents(basisAt, sampleAt, start, d, y)
    requires width <= MAX_COLUMNS && width <= |coeffs|
    ensures energy == SquaredError(d, y, coeffs, width, count)
  {
    var residual := EMPTY_SUM;
    for k := 0 to count
      invariant residual == Sum(SquaredError(d, y, coeffs, width, k), 0.0)
    {
      var basis := basisAt(start + k);
      var fitted := Dot(coeffs, basis, width);
      var error := sampleAt(start + k) - fitted;
      residual := residual.Add(error * error);
    }
    energy := residual.value;
  }

  /** c is the unique least-squares fit and energy is what it leaves over. */
  ghost predicate BestFit(d: seq<seq<real>>, y: seq<real>, c: seq<real>, energy: real)
    requires Design(d, y, |c|)
  {
    && Orthogonal(d, y, c, |c|)
    && StrictlyBest(d, y, c, |c|)
    && Energy(y, |y|) == FittedEnergy(d, c, |c|, |d|) + energy
    && energy == SquaredError(d, y, c, |c|, |d|)
  }

  /** The pivot floor grows with the window. */
  function Floor(count: nat): (floor: real)
    ensures floor >= 0.0 && floor * 100000000000000.0 == count as real
  {
    count as real * FLOOR_PER_FRAME
  }

  /** Solves the normal equations of a window and measures what is left over. */
  method FitWindow(basisAt: nat -> seq<real>, sampleAt: nat --> real, start: nat, count: nat, width: nat,
                   ghost d: seq<seq<real>>, ghost y: seq<real>)
    returns (answer: Result<seq<real>, string>, energy: real)
    requires Covers(basisAt, sampleAt, start, count) && |y| == count && Presents(basisAt, sampleAt, start, d, y)
    requires width <= MAX_COLUMNS
    ensures answer.Ok? <==> Accepts(NormalMatrix(d, width, |d|), 0, FitRule(Floor(count)), width)
    ensures answer.Err? ==> exists x :: NearlySilent(d, x, Floor(count), width)
    ensures answer.Ok? ==>
      && |answer.value| == MAX_COLUMNS
      && !Singular(NormalMatrix(d, width, |d|), width)
      && BestFit(d, y, answer.value[..width], energy)
  {
    var normal, rhs := Normalise(basisAt, sampleAt, start, count, width, d, y);
    answer := Solve(normal, rhs, width, Floor(count));
    energy := 0.0;
    if answer.Err? {
      RefusedNearlySilent(d, FitRule(Floor(count)), width);
    } else {
      NormalEquationsFit(d, y, answer.value[..width], width);
      energy := ResidualEnergy(basisAt, sampleAt, start, count, width, answer.value[..width], d, y);
    }
  }
}
