/** The two in-place Gauss-Jordan solvers of the measurement benches, with partial pivoting. */
module GaussJordan {
  import opened Elimination
  import opened LinearSystems
  import opened Minors
  import opened Outcomes
  import opened Vectors

  /** The leading n by n block of the array, as a value. */
  ghost function Grid(m: array2<real>, n: nat): (g: seq<seq<real>>)
    requires n <= m.Length0 && n <= m.Length1
    reads m
    ensures Square(g, n)
    ensures forall r, c :: 0 <= r < n && 0 <= c < n ==> g[r][c] == m[r, c]
  {
    seq(n, r requires 0 <= r < n reads m => seq(n, c requires 0 <= c < n reads m => m[r, c]))
  }

  /** Storage big enough for an n by n system. */
  predicate Fits(m: array2<real>, rhs: array<real>, n: nat) {
    n <= m.Length0 && n <= m.Length1 && n <= rhs.Length
  }

  method ExchangeRows(m: array2<real>, rhs: array<real>, p: nat, q: nat, ghost n: nat)
    requires Fits(m, rhs, n) && p < n && q < n
    modifies m, rhs
    ensures Exchanged(old(Grid(m, n)), old(rhs[..n]), Grid(m, n), rhs[..n], p, q, n)
    ensures rhs[n..] == old(rhs[n..])
  {
    for c := 0 to m.Length1
      modifies m
      invariant forall j :: 0 <= j < c ==> m[p, j] == old(m[q, j]) && m[q, j] == old(m[p, j])
      invariant forall r, j :: 0 <= r < m.Length0 && 0 <= j < m.Length1 && (j >= c || (r != p && r != q)) ==>
        m[r, j] == old(m[r, j])
    {
      m[p, c], m[q, c] := m[q, c], m[p, c];
    }
    rhs[p], rhs[q] := rhs[q], rhs[p];
    assert forall k :: n <= k < rhs.Length ==> rhs[k] == old(rhs[k]);
    assert Grid(m, n)[p] == old(Grid(m, n))[q];
    assert Grid(m, n)[q] == old(Grid(m, n))[p];
    assert forall r :: 0 <= r < n && r != p && r != q ==> Grid(m, n)[r] == old(Grid(m, n))[r];
  }

  method ScaleRow(m: array2<real>, rhs: array<real>, p: nat, n: nat)
    requires Fits(m, rhs, n) && p < n
    requires m[p, p] != 0.0
    requires forall c :: 0 <= c < p ==> m[p, c] == 0.0
    modifies m, rhs
    ensures Scaled(old(Grid(m, n)), old(rhs[..n]), Grid(m, n), rhs[..n], p, old(m[p, p]), n)
    ensures rhs[n..] == old(rhs[n..])
  {
    var scale := m[p, p];
    for c := p to n
      modifies m
      invariant forall j :: 0 <= j < c ==> m[p, j] == old(m[p, j]) / scale
      invariant forall r, j :: 0 <= r < m.Length0 && 0 <= j < m.Length1 && (r != p || j >= c) ==>
        m[r, j] == old(m[r, j])
    {
      m[p, c] := m[p, c] / scale;
    }
    rhs[p] := rhs[p] / scale;
    assert forall r :: 0 <= r < n && r != p ==> Grid(m, n)[r] == old(Grid(m, n))[r];
  }

  method ReduceRow(m: array2<real>, rhs: array<real>, p: nat, q: nat, n: nat)
    requires Fits(m, rhs, n) && p < n && q < n && p != q
    requires forall c :: 0 <= c < p ==> m[p, c] == 0.0
    modifies m, rhs
    ensures Reduced(old(Grid(m, n)), old(rhs[..n]), Grid(m, n), rhs[..n], p, q, old(m[q, p]), n)
    ensures rhs[n..] == old(rhs[n..])
  {
    var factor := m[q, p];
    for c := p to n
      modifies m
      invariant forall j :: 0 <= j < c ==> m[q, j] == old(m[q, j]) - Mul(factor, old(m[p, j]))
      invariant forall r, j :: 0 <= r < m.Length0 && 0 <= j < m.Length1 && (r != q || j >= c) ==>
        m[r, j] == old(m[r, j])
    {
      m[q, c] := m[q, c] - factor * m[p, c];
    }
    rhs[q] := rhs[q] - factor * rhs[p];
    assert forall r :: 0 <= r < n && r != q ==> Grid(m, n)[r] == old(Grid(m, n))[r];
  }

  /** Divides the pivot row through by its pivot. */
  method NormalisePivot(m: array2<real>, rhs: array<real>, p: nat, n: nat)
    requires Fits(m, rhs, n) && p < n
    requires m[p, p] != 0.0
    requires ReducedColumns(Grid(m, n), p, n)
    modifies m, rhs
    ensures Equivalent(old(Grid(m, n)), old(rhs[..n]), Grid(m, n), rhs[..n], n)
    ensures ReducedColumns(Grid(m, n), p, n) && m[p, p] == 1.0
    ensures Grid(m, n) == old(Grid(m, n))[p := UnitRow(old(Grid(m, n)), p, n)]
    ensures rhs[n..] == old(rhs[n..])
  {
    ghost var a, b := Grid(m, n), rhs[..n];
    UnitQuotient(m[p, p]);
    assert forall c :: 0 <= c < p ==> a[p][c] == 0.0;
    ScaleRow(m, rhs, p, n);
    ScaleKeeps(a, b, Grid(m, n), rhs[..n], p, a[p][p], n);
    ScaleKeeps(a, Zeros(n), Grid(m, n), Zeros(n), p, a[p][p], n);
    assert Grid(m, n)[p] == UnitRow(a, p, n);
  }

  /** Clears one entry of the pivot column with the normalised pivot row. */
  method ClearEntry(m: array2<real>, rhs: array<real>, p: nat, q: nat, n: nat)
    requires Fits(m, rhs, n) && p < n && q < n && p != q
    requires ReducedColumns(Grid(m, n), p, n) && m[p, p] == 1.0
    modifies m, rhs
    ensures Equivalent(old(Grid(m, n)), old(rhs[..n]), Grid(m, n), rhs[..n], n)
    ensures ReducedColumns(Grid(m, n), p, n) && m[q, p] == 0.0
    ensures Grid(m, n) == old(Grid(m, n))[q := LessUnit(old(Grid(m, n))[q], old(Grid(m, n))[p], p, n)]
    ensures rhs[n..] == old(rhs[n..])
  {
    ghost var a, b := Grid(m, n), rhs[..n];
    assert forall c :: 0 <= c < p ==> a[p][c] == 0.0;
    ReduceRow(m, rhs, p, q, n);
    ghost var a' := Grid(m, n);
    assert a'[q] == LessUnit(a[q], a[p], p, n);
    ReduceKeeps(a, b, a', rhs[..n], p, q, a[q][p], n);
    ReduceKeeps(a, Zeros(n), a', Zeros(n), p, q, a[q][p], n);
  }

  /** One full pivot step after the pivot row is in place: normalise it, then clear its column. */
  method ClearColumn(m: array2<real>, rhs: array<real>, p: nat, n: nat)
    requires Fits(m, rhs, n) && p < n
    requires m[p, p] != 0.0
    requires ReducedColumns(Grid(m, n), p, n)
    modifies m, rhs
    ensures Equivalent(old(Grid(m, n)), old(rhs[..n]), Grid(m, n), rhs[..n], n)
    ensures Grid(m, n) == Cleared(old(Grid(m, n)), p, n)
    ensures ReducedColumns(Grid(m, n), p + 1, n)
    ensures rhs[n..] == old(rhs[n..])
  {
    ghost var a0, b0 := Grid(m, n), rhs[..n];
    StepReduces(a0, p, n);
    NormalisePivot(m, rhs, p, n);
    ghost var u := UnitRow(a0, p, n);
    hide Equivalent, UnitRow, LessUnit;
    for q := 0 to n
      invariant Equivalent(a0, b0, Grid(m, n), rhs[..n], n)
      invariant rhs[n..] == old(rhs[n..])
      invariant ReducedColumns(Grid(m, n), p, n) && m[p, p] == 1.0
      invariant Grid(m, n)[p] == u
      invariant forall r :: 0 <= r < q && r != p ==> Grid(m, n)[r] == LessUnit(a0[r], u, p, n)
      invariant forall r :: q <= r < n && r != p ==> Grid(m, n)[r] == a0[r]
    {
      if q != p {
        ghost var a, b := Grid(m, n), rhs[..n];
        ClearEntry(m, rhs, p, q, n);
        ChainSolutions(a0, b0, a, b, Grid(m, n), rhs[..n], n);
      }
    }
  }

  /** What a solver owes its caller about the system it was given. */
  ghost predicate Solved(a: seq<seq<real>>, b: seq<real>, x: seq<real>, n: nat)
    requires Square(a, n) && |b| == n
  {
    UniqueSolution(a, b, x, n) && !Singular(a, n)
  }

  method BringUp(m: array2<real>, rhs: array<real>, best: nat, p: nat, ghost n: nat)
    requires Fits(m, rhs, n) && p <= best < n
    requires ReducedColumns(Grid(m, n), p, n)
    modifies m, rhs
    ensures Equivalent(old(Grid(m, n)), old(rhs[..n]), Grid(m, n), rhs[..n], n)
    ensures ReducedColumns(Grid(m, n), p, n)
    ensures Grid(m, n) == Swapped(old(Grid(m, n)), p, best)
    ensures rhs[n..] == old(rhs[n..])
  {
    ghost var a, b := Grid(m, n), rhs[..n];
    ExchangeRows(m, rhs, best, p, n);
    ExchangeKeeps(a, b, Grid(m, n), rhs[..n], best, p, n);
    ExchangeKeeps(a, Zeros(n), Grid(m, n), Zeros(n), best, p, n);
  }

  /** A whole pivot step of the component fit. */
  method FitStep(m: array2<real>, rhs: array<real>, best: nat, p: nat, n: nat)
    requires Fits(m, rhs, n) && p <= best < n
    requires m[best, p] != 0.0
    requires ReducedColumns(Grid(m, n), p, n)
    modifies m, rhs
    ensures Equivalent(old(Grid(m, n)), old(rhs[..n]), Grid(m, n), rhs[..n], n)
    ensures Grid(m, n) == Cleared(Swapped(old(Grid(m, n)), p, best), p, n)
    ensures ReducedColumns(Grid(m, n), p + 1, n)
    ensures rhs[n..] == old(rhs[n..])
  {
    ghost var a, b := Grid(m, n), rhs[..n];
    assert a[best][p] == m[best, p];
    BringUp(m, rhs, best, p, n);
    hide Equivalent, Swapped, Cleared;
    ghost var a', b' := Grid(m, n), rhs[..n];
    ClearColumn(m, rhs, p, n);
    ChainSolutions(a, b, a', b', Grid(m, n), rhs[..n], n);
  }

  /** The rule of the component fit: the last of the largest, refused at or below the floor. */
  function FitRule(floor: real): Rule {
    Rule(true, floor, false)
  }

  /** Solves the leading width by width system; a pivot of magnitude at most `floor` is refused. */
  method Solve(matrix: array2<real>, rhs: array<real>, width: nat, floor: real) returns (r: Result<seq<real>, string>)
    requires Fits(matrix, rhs, width) && floor >= 0.0
    modifies matrix, rhs
    ensures r.Ok? ==>
      && |r.value| == rhs.Length
      && r.value[width..] == old(rhs[width..])
      && Solved(old(Grid(matrix, width)), old(rhs[..width]), r.value[..width], width)
    ensures r.Ok? <==> Accepts(old(Grid(matrix, width)), 0, FitRule(floor), width)
    ensures r.Err? ==> exists x :: NearlyNull(old(Grid(matrix, width)), x, FitRule(floor), width)
    ensures floor == 0.0 ==> (r.Err? <==> Singular(old(Grid(matrix, width)), width))
  {
    ghost var a0, b0, rule := Grid(matrix, width), rhs[..width], FitRule(floor);
    RefusedNearlyNull(a0, rule, width);
    hide Equivalent, Singular, Solves, Swapped, Cleared, NearlyNull, Accepts, Largest, UniqueSolution;
    for pivot := 0 to width
      invariant Equivalent(a0, b0, Grid(matrix, width), rhs[..width], width)
      invariant ReducedColumns(Grid(matrix, width), pivot, width)
      invariant Accepts(a0, 0, rule, width) <==> Accepts(Grid(matrix, width), pivot, rule, width)
      invariant rhs[width..] == old(rhs[width..])
    {
      var best := LastLargest(matrix, pivot, width);
      ghost var a, b := Grid(matrix, width), rhs[..width];
      AcceptsStep(a, pivot, best, rule, width);
      if Abs(matrix[best, pivot]) <= floor {
        return Err("singular component-fit matrix");
      }
      FitStep(matrix, rhs, best, pivot, width);
      ChainSolutions(a0, b0, a, b, Grid(matrix, width), rhs[..width], width);
    }
    IdentitySolved(Grid(matrix, width), rhs[..width], a0, b0, width);
    AcceptsEnd(Grid(matrix, width), rule, width);
    r := Ok(rhs[..]);
    assert rhs[..][..width] == rhs[..width] && rhs[..][width..] == rhs[width..];
  }

  /** A refused matrix is nearly singular, and with floor zero it is singular. */
  lemma RefusedNearlyNull(a: seq<seq<real>>, rule: Rule, n: nat)
    requires Square(a, n) && Sensible(rule)
    ensures !Accepts(a, 0, rule, n) ==> exists x :: NearlyNull(a, x, rule, n)
    ensures !Accepts(a, 0, rule, n) && rule.floor == 0.0 ==> Singular(a, n)
  {
    if !Accepts(a, 0, rule, n) {
      var x := RefusedVector(a, 0, rule, n);
      assert NearlyNull(a, x, rule, n);
      if rule.floor == 0.0 {
        assert Solves(a, Zeros(n), x, n);
        assert 1.0 !in Zeros(n);
      }
    }
  }

  /** The row at or below `pivot` of largest magnitude in that column; of several, the last. */
  method LastLargest(m: array2<real>, pivot: nat, n: nat) returns (best: nat)
    requires pivot < n <= m.Length0 && n <= m.Length1
    ensures pivot <= best < n
    ensures forall r :: pivot <= r < n ==> Abs(m[r, pivot]) <= Abs(m[best, pivot])
    ensures forall r :: best < r < n ==> Abs(m[r, pivot]) < Abs(m[best, pivot])
    ensures Largest(Grid(m, n), pivot, best, true, n)
  {
    best := pivot;
    for row := pivot + 1 to n
      invariant pivot <= best < row
      invariant forall r :: pivot <= r < row ==> Abs(m[r, pivot]) <= Abs(m[best, pivot])
      invariant forall r :: best < r < row ==> Abs(m[r, pivot]) < Abs(m[best, pivot])
    {
      if Abs(m[row, pivot]) >= Abs(m[best, pivot]) {
        best := row;
      }
    }
  }

  /** The row at or below `pivot` of largest magnitude in that column; of several, the first. */
  method FirstLargest(m: array2<real>, pivot: nat, n: nat) returns (best: nat)
    requires pivot < n <= m.Length0 && n <= m.Length1
    ensures pivot <= best < n
    ensures forall r :: pivot <= r < n ==> Abs(m[r, pivot]) <= Abs(m[best, pivot])
    ensures forall r :: pivot <= r < best ==> Abs(m[r, pivot]) < Abs(m[best, pivot])
    ensures Largest(Grid(m, n), pivot, best, false, n)
  {
    best := pivot;
    for row := pivot + 1 to n
      invariant pivot <= best < row
      invariant forall r :: pivot <= r < row ==> Abs(m[r, pivot]) <= Abs(m[best, pivot])
      invariant forall r :: pivot <= r < best ==> Abs(m[r, pivot]) < Abs(m[best, pivot])
    {
      if Abs(m[row, pivot]) > Abs(m[best, pivot]) {
        best := row;
      }
    }
  }

  const PIVOT_FLOOR_3X3 := 0.000000000000000000000001

  /** A whole pivot step of the twin, which exchanges rows only when it has to. */
  method TwinStep(m: array2<real>, rhs: array<real>, best: nat, p: nat, n: nat)
    requires Fits(m, rhs, n) && p <= best < n
    requires m[best, p] != 0.0
    requires ReducedColumns(Grid(m, n), p, n)
    modifies m, rhs
    ensures Equivalent(old(Grid(m, n)), old(rhs[..n]), Grid(m, n), rhs[..n], n)
    ensures Grid(m, n) == Cleared(Swapped(old(Grid(m, n)), p, best), p, n)
    ensures ReducedColumns(Grid(m, n), p + 1, n)
    ensures rhs[n..] == old(rhs[n..])
  {
    ghost var a, b := Grid(m, n), rhs[..n];
    assert a[best][p] == m[best, p];
    SwapNothing(a, p);
    if best != p {
      BringUp(m, rhs, best, p, n);
    }
    hide Equivalent, Swapped, Cleared;
    ghost var a', b' := Grid(m, n), rhs[..n];
    ClearColumn(m, rhs, p, n);
    ChainSolutions(a, b, a', b', Grid(m, n), rhs[..n], n);
  }

  const TWIN_RULE := Rule(false, PIVOT_FLOOR_3X3, true)

  /** The three-column twin: a pivot of magnitude below 1e-24 is refused. */
  method Solve3x3(matrix: array2<real>, rhs: array<real>) returns (r: Result<seq<real>, string>)
    requires matrix.Length0 == 3 && matrix.Length1 == 3 && rhs.Length == 3
    modifies matrix, rhs
    ensures r.Ok? ==> Solved(old(Grid(matrix, 3)), old(rhs[..3]), r.value, 3)
    ensures r.Ok? <==> GoodMinors(old(Grid(matrix, 3)), TWIN_RULE)
    ensures r.Err? ==> exists x :: NearlyNull(old(Grid(matrix, 3)), x, TWIN_RULE, 3)
  {
    var n := rhs.Length;
    ghost var a0, b0, rule := Grid(matrix, n), rhs[..n], TWIN_RULE;
    RefusedNearlyNull(a0, rule, n);
    MinorsDecide(a0, rule, n);
    hide GoodMinors, Equivalent, Singular, Solves, Swapped, Cleared, NearlyNull, Accepts, Largest, UniqueSolution;
    for pivot := 0 to n
      invariant Equivalent(a0, b0, Grid(matrix, n), rhs[..n], n)
      invariant ReducedColumns(Grid(matrix, n), pivot, n)
      invariant Accepts(a0, 0, rule, n) <==> Accepts(Grid(matrix, n), pivot, rule, n)
    {
      var best := FirstLargest(matrix, pivot, n);
      ghost var a, b := Grid(matrix, n), rhs[..n];
      AcceptsStep(a, pivot, best, rule, n);
      if Abs(matrix[best, pivot]) < PIVOT_FLOOR_3X3 {
        return Err("singular sine-fit matrix");
      }
      TwinStep(matrix, rhs, best, pivot, n);
      ChainSolutions(a0, b0, a, b, Grid(matrix, n), rhs[..n], n);
    }
    IdentitySolved(Grid(matrix, n), rhs[..n], a0, b0, n);
    AcceptsEnd(Grid(matrix, n), rule, n);
    r := Ok(rhs[..]);
    assert rhs[..] == rhs[..n];
  }

  lemma SwapNothing(a: seq<seq<real>>, p: nat)
    requires p < |a|
    ensures Swapped(a, p, p) == a
  {
  }

  /** A regular system that both solvers refuse when its first column is below their floor. */
  lemma TinyRegular(v: real, rule: Rule)
    requires Sensible(rule) && 0.0 < v < rule.floor
    ensures var a := [[v, 0.0, 0.0], [0.0, 1.0, 0.0], [0.0, 0.0, 1.0]];
      Square(a, 3) && !Singular(a, 3) && !Accepts(a, 0, rule, 3)
  {
    var a := [[v, 0.0, 0.0], [0.0, 1.0, 0.0], [0.0, 0.0, 1.0]];
    forall x | |x| == 3 && Solves(a, Zeros(3), x, 3) ensures x == Zeros(3) {
      assert Dot(a[0], x, 3) == 0.0 && Dot(a[1], x, 3) == 0.0 && Dot(a[2], x, 3) == 0.0;
      DotThree(a[0], x);
      DotThree(a[1], x);
      DotThree(a[2], x);
      ZeroProduct(v, x[0]);
    }
  }

  lemma DotThree(u: seq<real>, x: seq<real>)
    requires |u| >= 3 && |x| >= 3
    ensures Dot(u, x, 3) == Mul(u[0], x[0]) + Mul(u[1], x[1]) + Mul(u[2], x[2])
  {
    assert Dot(u, x, 1) == Dot(u, x, 0) + Mul(u[0], x[0]);
    assert Dot(u, x, 2) == Dot(u, x, 1) + Mul(u[1], x[1]);
  }
}
