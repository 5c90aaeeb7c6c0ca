/** Probes that fill the window with whole periods: their columns are orthogonal, so the fit accepts them and
  * resolves them exactly.
  */
module WholePeriods {
  import opened Arithmetic
  import opened ChannelLevel
  import opened ComponentFit
  import opened Elimination
  import opened FitAcceptance
  import opened GaussJordan
  import opened LeastSquares
  import opened Outcomes
  import opened ToneRecovery
  import opened Vectors
  import opened WindowFit

  ghost predicate AddsCosines(t: Waves, a: real, b: real) {
    t.cos(a + b) == Mul(t.cos(a), t.cos(b)) - Mul(t.sin(a), t.sin(b))
  }

  /** Sine and cosine as coordinates on the circle that one turn of length tau goes around once. */
  ghost predicate Rotates(t: Waves) {
    && (forall a, b :: AddsAngles(t, a, b)) && (forall a, b :: AddsCosines(t, a, b)) && (forall a :: OnUnitCircle(t, a))
    && t.tau > 0.0 && t.sin(0.0) == 0.0 && t.cos(0.0) == 1.0 && t.sin(t.tau) == 0.0 && t.cos(t.tau) == 1.0
    && (forall a: real :: 0.0 < a < t.tau ==> t.cos(a) != 1.0)
  }

  /** Such a sine and cosine satisfy the identities of the analysis: twice half a turn is a whole one. */
  lemma RotatesIsTrigonometric(t: Waves)
    requires Rotates(t)
    ensures Trigonometric(t)
  {
    var half := t.tau * 0.5;
    var c, s := t.cos(half), t.sin(half);
    assert AddsCosines(t, half, half) && OnUnitCircle(t, half) && half + half == t.tau;
    assert 0.0 < half < t.tau && c != 1.0;
    HalfTurnBack(c, s);
  }

  lemma HalfTurnBack(c: real, s: real)
    requires Mul(c, c) - Mul(s, s) == 1.0 && Mul(s, s) + Mul(c, c) == 1.0 && c != 1.0
    ensures s == 0.0 && c == -1.0
  {
    ZeroProduct(s, s);
    assert Mul(c - 1.0, c + 1.0) == Mul(c, c) - 1.0;
    ZeroProduct(c - 1.0, c + 1.0);
  }

  // ---------- phases ----------

  /** The angle of a count of rate-ths of a turn, whole turns removed. */
  function Phase(t: Waves, x: nat, rate: nat): real
    requires rate > 0
  {
    Turn(t, x % rate, rate)
  }

  lemma ResidueSum(a: nat, b: nat, m: nat)
    requires m > 0
    ensures (a + b) % m == if a % m + b % m < m then a % m + b % m else a % m + b % m - m
  {
    var q, r := a / m + b / m, a % m + b % m;
    assert a + b == q * m + r by {
      assert a == (a / m) * m + a % m && b == (b / m) * m + b % m;
    }
    if r < m {
      DivModUnique(a + b, m, q, r);
    } else {
      DivModUnique(a + b, m, q + 1, r - m);
    }
  }

  lemma TurnsAdd(t: Waves, x: nat, y: nat, z: nat, rate: nat)
    requires rate > 0
    ensures z == x + y ==> Turn(t, z, rate) == Turn(t, x, rate) + Turn(t, y, rate)
    ensures z + rate == x + y ==> Turn(t, z, rate) == Turn(t, x, rate) + Turn(t, y, rate) - t.tau
  {
    hide Share;
    SameDenominator(t.tau, x as real, y as real, z as real, rate as real);
  }

  lemma SameDenominator(tau: real, x: real, y: real, z: real, d: real)
    requires d > 0.0
    ensures z == x + y ==> Share(tau, z, d) == Share(tau, x, d) + Share(tau, y, d)
    ensures z + d == x + y ==> Share(tau, z, d) == Share(tau, x, d) + Share(tau, y, d) - tau
  {
    var p, q, r := tau * x / d, tau * y / d, tau * z / d;
    assert p * d == tau * x && q * d == tau * y && r * d == tau * z;
    if z == x + y {
      assert (p + q - r) * d == 0.0;
    } else if z + d == x + y {
      assert (p + q - r - tau) * d == 0.0;
    }
  }

  lemma TurnBack(t: Waves, a: real)
    requires Rotates(t)
    ensures t.cos(a - t.tau) == t.cos(a) && t.sin(a - t.tau) == t.sin(a)
  {
    var b := a - t.tau;
    assert AddsAngles(t, b, t.tau) && AddsCosines(t, b, t.tau);
    assert b + t.tau == a;
    MulByOne(t.sin(b));
    MulByOne(t.cos(b));
  }

  /** Phases add like angles do. */
  lemma PhasesAdd(t: Waves, x: nat, y: nat, rate: nat)
    requires rate > 0 && Rotates(t)
    ensures var a, b, c := Phase(t, x, rate), Phase(t, y, rate), Phase(t, x + y, rate);
      && t.cos(c) == Mul(t.cos(a), t.cos(b)) - Mul(t.sin(a), t.sin(b))
      && t.sin(c) == Mul(t.sin(a), t.cos(b)) + Mul(t.cos(a), t.sin(b))
  {
    ResidueSum(x, y, rate);
    TurnsAdd(t, x % rate, y % rate, (x + y) % rate, rate);
    hide Turn, Mul;
    var a, b := Phase(t, x, rate), Phase(t, y, rate);
    assert AddsAngles(t, a, b) && AddsCosines(t, a, b);
    TurnBack(t, a + b);
  }

  // ---------- sums over whole periods ----------

  ghost function Wave(t: Waves, cosine: bool, x: nat, rate: nat): real
    requires rate > 0
  {
    if cosine then t.cos(Phase(t, x, rate)) else t.sin(Phase(t, x, rate))
  }

  /** The sum of a wave over n frames from start. */
  ghost function WaveSum(t: Waves, cosine: bool, hz: nat, rate: nat, start: nat, n: nat): real
    requires rate > 0
  {
    if n == 0 then 0.0
    else WaveSum(t, cosine, hz, rate, start, n - 1) + Wave(t, cosine, (start + (n - 1)) * hz, rate)
  }

  lemma NextFrame(t: Waves, hz: nat, rate: nat, frame: nat)
    requires rate > 0 && Rotates(t)
    ensures var c, s, x := Wave(t, true, hz, rate), Wave(t, false, hz, rate), frame * hz;
      && Wave(t, true, (frame + 1) * hz, rate) == Mul(c, Wave(t, true, x, rate)) - Mul(s, Wave(t, false, x, rate))
      && Wave(t, false, (frame + 1) * hz, rate) == Mul(s, Wave(t, true, x, rate)) + Mul(c, Wave(t, false, x, rate))
  {
    assert (frame + 1) * hz == frame * hz + hz;
    PhasesAdd(t, frame * hz, hz, rate);
    hide Phase, Mul;
    var a, b := Phase(t, frame * hz, rate), Phase(t, hz, rate);
    MulCommutes(t.cos(a), t.cos(b));
    MulCommutes(t.sin(a), t.sin(b));
    MulCommutes(t.sin(a), t.cos(b));
    MulCommutes(t.cos(a), t.sin(b));
  }

  /** Moving the window one frame on turns the two sums by one step. */
  lemma {:induction false} SumsTurn(t: Waves, hz: nat, rate: nat, start: nat, n: nat)
    requires rate > 0 && Rotates(t)
    ensures var c, s := Wave(t, true, hz, rate), Wave(t, false, hz, rate);
      var a, b := WaveSum(t, true, hz, rate, start, n), WaveSum(t, false, hz, rate, start, n);
      && WaveSum(t, true, hz, rate, start + 1, n) == Mul(c, a) - Mul(s, b)
      && WaveSum(t, false, hz, rate, start + 1, n) == Mul(s, a) + Mul(c, b)
  {
    hide Mul, Wave, Rotates;
    var c, s := Wave(t, true, hz, rate), Wave(t, false, hz, rate);
    if n == 0 {
      MulAdds(c, 0.0, 0.0);
      MulAdds(s, 0.0, 0.0);
    } else {
      SumsTurn(t, hz, rate, start, n - 1);
      var frame := start + (n - 1);
      NextFrame(t, hz, rate, frame);
      assert start + 1 + (n - 1) == frame + 1;
      var a, b := WaveSum(t, true, hz, rate, start, n - 1), WaveSum(t, false, hz, rate, start, n - 1);
      var x, y := Wave(t, true, frame * hz, rate), Wave(t, false, frame * hz, rate);
      MulAdds(c, a, x);
      MulAdds(s, b, y);
      MulAdds(s, a, x);
      MulAdds(c, b, y);
    }
  }

  /** Moving the window one frame on drops its first value and takes in one more. */
  lemma {:induction false} SumShifts(t: Waves, cosine: bool, hz: nat, rate: nat, start: nat, n: nat)
    requires rate > 0
    ensures WaveSum(t, cosine, hz, rate, start + 1, n)
      == WaveSum(t, cosine, hz, rate, start, n) - Wave(t, cosine, start * hz, rate) + Wave(t, cosine,
        (start + n) * hz, rate)
  {
    hide Wave;
    if n > 0 {
      SumShifts(t, cosine, hz, rate, start, n - 1);
      assert start + 1 + (n - 1) == start + n;
    }
  }

  /** n frames are a whole number of periods. */
  predicate Whole(n: nat, hz: nat, rate: nat)
    requires rate > 0
  {
    (n * hz) % rate == 0
  }

  lemma WholeRepeats(t: Waves, cosine: bool, hz: nat, rate: nat, start: nat, n: nat)
    requires rate > 0 && Whole(n, hz, rate)
    ensures Wave(t, cosine, (start + n) * hz, rate) == Wave(t, cosine, start * hz, rate)
  {
    assert (start + n) * hz == start * hz + n * hz;
    ResidueSum(start * hz, n * hz, rate);
  }

  /** A step that is not a whole turn leaves only zero where it was. */
  lemma OnlyZeroTurns(c: real, s: real, a: real, b: real)
    requires Mul(s, s) + Mul(c, c) == 1.0 && c != 1.0
    requires a == Mul(c, a) - Mul(s, b) && b == Mul(s, a) + Mul(c, b)
    ensures a == 0.0 && b == 0.0
  {
    var k := 2.0 - 2.0 * c;
    assert k * a == 0.0 by {
      assert (1.0 - c) * a == -(s * b) && (1.0 - c) * b == s * a;
      assert ((1.0 - c) * (1.0 - c)) * a == -(s * ((1.0 - c) * b));
      assert ((1.0 - c) * (1.0 - c) + s * s) * a == 0.0;
      assert (1.0 - c) * (1.0 - c) + s * s == k;
    }
    assert k * b == 0.0 by {
      assert (1.0 - c) * a == -(s * b) && (1.0 - c) * b == s * a;
      assert ((1.0 - c) * (1.0 - c)) * b == s * ((1.0 - c) * a);
      assert ((1.0 - c) * (1.0 - c) + s * s) * b == 0.0;
      assert (1.0 - c) * (1.0 - c) + s * s == k;
    }
    ZeroProduct(k, a);
    ZeroProduct(k, b);
  }

  lemma PartOfTurn(t: Waves, hz: nat, rate: nat)
    requires 0 < hz < rate && t.tau > 0.0
    ensures 0.0 < Phase(t, hz, rate) < t.tau
  {
    hide Share;
    assert hz % rate == hz;
    PartOfWhole(t.tau, hz as real, rate as real);
  }

  lemma PartOfWhole(tau: real, x: real, d: real)
    requires 0.0 < x < d && tau > 0.0
    ensures 0.0 < Share(tau, x, d) < tau
  {
    var p := tau * x / d;
    assert p * d == tau * x && tau * x > 0.0;
    assert (tau - p) * d == tau * (d - x) && tau * (d - x) > 0.0;
    PositiveFactor(p, d);
    PositiveFactor(tau - p, d);
  }

  /** Over whole periods of a tone below the rate the sine and the cosine both sum to zero. */
  lemma WholeSumsVanish(t: Waves, hz: nat, rate: nat, start: nat, n: nat)
    requires 0 < hz < rate && Rotates(t) && Whole(n, hz, rate)
    ensures WaveSum(t, true, hz, rate, start, n) == 0.0 && WaveSum(t, false, hz, rate, start, n) == 0.0
  {
    PartOfTurn(t, hz, rate);
    var c, s := Wave(t, true, hz, rate), Wave(t, false, hz, rate);
    assert c != 1.0 && OnUnitCircle(t, Phase(t, hz, rate));
    assert Mul(s, s) + Mul(c, c) == 1.0;
    hide Mul, Wave, Phase, WaveSum, Whole;
    SumsTurn(t, hz, rate, start, n);
    hide Rotates;
    SumShifts(t, true, hz, rate, start, n);
    SumShifts(t, false, hz, rate, start, n);
    WholeRepeats(t, true, hz, rate, start, n);
    WholeRepeats(t, false, hz, rate, start, n);
    OnlyZeroTurns(c, s, WaveSum(t, true, hz, rate, start, n), WaveSum(t, false, hz, rate, start, n));
  }

  // ---------- products of two waves ----------

  lemma ProductFormulas(cA: real, sA: real, cB: real, sB: real, cC: real, sC: real, cD: real, sD: real)
    requires cA == Mul(cD, cB) - Mul(sD, sB) && sA == Mul(sD, cB) + Mul(cD, sB)
    requires cC == Mul(cA, cB) - Mul(sA, sB) && sC == Mul(sA, cB) + Mul(cA, sB)
    requires Mul(sB, sB) + Mul(cB, cB) == 1.0
    ensures 2.0 * Mul(cA, cB) == cD + cC && 2.0 * Mul(sA, sB) == cD - cC
    ensures 2.0 * Mul(sA, cB) == sC + sD && 2.0 * Mul(cA, sB) == sC - sD
  {
    assert cA * cB + sA * sB == cD by {
      assert (cD * cB - sD * sB) * cB + (sD * cB + cD * sB) * sB == cD * (sB * sB + cB * cB);
    }
    assert sA * cB - cA * sB == sD by {
      assert (sD * cB + cD * sB) * cB - (cD * cB - sD * sB) * sB == sD * (sB * sB + cB * cB);
    }
  }

  /** Twice the product of two waves is a wave at the sum and one at the difference of their frequencies. */
  ghost function TwiceProduct(t: Waves, c: bool, h: nat, e: bool, g: nat, rate: nat, frame: nat): real
    requires rate > 0 && g <= h
  {
    var near, far := Wave(t, c == e, frame * (h - g), rate), Wave(t, c == e, frame * (h + g), rate);
    if c && e then near + far else if !c && !e then near - far else if e then far + near else far - near
  }

  lemma WavesMultiply(t: Waves, c: bool, h: nat, e: bool, g: nat, rate: nat, frame: nat)
    requires rate > 0 && g <= h && Rotates(t)
    ensures 2.0 * Mul(Wave(t, c, frame * h, rate), Wave(t, e, frame * g, rate))
      == TwiceProduct(t, c, h, e, g, rate, frame)
  {
    var x, y, z := frame * (h - g), frame * g, frame * h;
    assert z == x + y && frame * (h + g) == z + y;
    PhasesAdd(t, x, y, rate);
    PhasesAdd(t, z, y, rate);
    assert OnUnitCircle(t, Phase(t, y, rate));
    hide Mul, Phase, Rotates;
    var a, b, d, f := Phase(t, z, rate), Phase(t, y, rate), Phase(t, x, rate), Phase(t, z + y, rate);
    ProductFormulas(t.cos(a), t.sin(a), t.cos(b), t.sin(b), t.cos(f), t.sin(f), t.cos(d), t.sin(d));
  }

  /** A column of a probe: a cosine at zero or at half the rate, or a wave between them, that fills the window with
    * whole periods.
    */
  predicate Fills(column: Column, rate: nat, n: nat)
    requires rate > 0
  {
    2 * column.hz <= rate && Whole(n, column.hz, rate) && (Boundary(column.hz, rate) ==> column.cosine)
  }

  lemma ColumnIsWave(t: Waves, column: Column, rate: nat, n: nat, frame: nat)
    requires rate > 0 && Rotates(t) && Fills(column, rate, n)
    ensures BasisValue(t, column, rate, frame) == Wave(t, column.cosine, frame * column.hz, rate)
  {
    if Boundary(column.hz, rate) {
      BoundaryAngle(t, frame, rate, column.hz);
      RotatesIsTrigonometric(t);
    }
  }

  /** Twice the inner product of two columns, as sums of single waves. */
  ghost function TwiceGram(t: Waves, c: bool, h: nat, e: bool, g: nat, rate: nat, start: nat, n: nat): real
    requires rate > 0 && g <= h
  {
    var near, far := WaveSum(t, c == e, h - g, rate, start, n), WaveSum(t, c == e, h + g, rate, start, n);
    if c && e then near + far else if !c && !e then near - far else if e then far + near else far - near
  }

  lemma {:induction false} GramOfWaves(t: Waves, columns: seq<Column>, rate: nat, start: nat, n: nat, i: nat, j: nat,
    d: seq<seq<real>>, k: nat)
    requires rate > 0 && Rotates(t) && |columns| <= MAX_COLUMNS && i < |columns| && j < |columns| && k <= n
    requires Fills(columns[i], rate, n) && Fills(columns[j], rate, n) && columns[j].hz <= columns[i].hz
    requires d == WindowDesign(t, columns, rate, start, n)
    ensures 2.0 * Gram(d, i, j, k)
      == TwiceGram(t, columns[i].cosine, columns[i].hz, columns[j].cosine, columns[j].hz, rate, start, k)
  {
    hide Mul, Wave, Rotates, Fills, BasisValue;
    if k > 0 {
      GramOfWaves(t, columns, rate, start, n, i, j, d, k - 1);
      var frame, a, b := start + (k - 1), columns[i], columns[j];
      assert d[k - 1][i] == BasisValue(t, a, rate, frame) && d[k - 1][j] == BasisValue(t, b, rate, frame);
      ColumnIsWave(t, a, rate, n, frame);
      ColumnIsWave(t, b, rate, n, frame);
      WavesMultiply(t, a.cosine, a.hz, b.cosine, b.hz, rate, frame);
    }
  }

  lemma {:induction false} ConstantSums(t: Waves, rate: nat, start: nat, n: nat)
    requires rate > 0 && Rotates(t)
    ensures WaveSum(t, true, 0, rate, start, n) == n as real && WaveSum(t, false, 0, rate, start, n) == 0.0
  {
    if n > 0 {
      ConstantSums(t, rate, start, n - 1);
      TurnParts(t, rate);
      hide Rotates;
      assert (start + (n - 1)) * 0 == 0;
      assert t.cos(0.0) == 1.0 && t.sin(0.0) == 0.0;
    }
  }

  lemma WholeCombines(n: nat, h: nat, g: nat, rate: nat)
    requires rate > 0 && g <= h && Whole(n, h, rate) && Whole(n, g, rate)
    ensures Whole(n, h + g, rate) && Whole(n, h - g, rate)
  {
    assert n * (h + g) == n * h + n * g && n * h == n * (h - g) + n * g;
    ResidueSum(n * h, n * g, rate);
    ResidueSum(n * (h - g), n * g, rate);
  }

  /** At the rate itself, and at zero, every frame is a whole turn. */
  lemma {:induction false} FullTurnSums(t: Waves, rate: nat, start: nat, n: nat)
    requires rate > 0 && Rotates(t)
    ensures WaveSum(t, true, rate, rate, start, n) == n as real && WaveSum(t, false, rate, rate, start, n) == 0.0
  {
    if n > 0 {
      FullTurnSums(t, rate, start, n - 1);
      var frame := start + (n - 1);
      DivModUnique(frame * rate, rate, frame, 0);
      TurnParts(t, rate);
    }
  }

  /** The energy of a column: half the window, or all of it at zero and half the rate. */
  function ColumnEnergy(hz: nat, rate: nat, n: nat): real {
    if Boundary(hz, rate) then n as real else n as real / 2.0
  }

  /** Different columns are orthogonal over the window. */
  lemma ColumnsOrthogonal(t: Waves, columns: seq<Column>, rate: nat, start: nat, n: nat, i: nat, j: nat)
    requires rate > 0 && Rotates(t) && |columns| <= MAX_COLUMNS && i < |columns| && j < |columns|
    requires Fills(columns[i], rate, n) && Fills(columns[j], rate, n) && columns[j].hz <= columns[i].hz
    ensures Gram(WindowDesign(t, columns, rate, start, n), i, j, n)
      == if columns[i] != columns[j] then 0.0 else ColumnEnergy(columns[i].hz, rate, n)
  {
    var a, b := columns[i], columns[j];
    hide Mul, Rotates, WindowDesign, Gram, Whole, TwiceGram;
    GramOfWaves(t, columns, rate, start, n, i, j, WindowDesign(t, columns, rate, start, n), n);
    WholeCombines(n, a.hz, b.hz, rate);
    TwiceGramValue(t, a.cosine, a.hz, b.cosine, b.hz, rate, start, n);
  }

  lemma TwiceGramValue(t: Waves, c: bool, h: nat, e: bool, g: nat, rate: nat, start: nat, n: nat)
    requires rate > 0 && Rotates(t) && g <= h && 2 * h <= rate
    requires (Boundary(h, rate) ==> c) && (Boundary(g, rate) ==> e)
    requires Whole(n, h + g, rate) && Whole(n, h - g, rate)
    ensures TwiceGram(t, c, h, e, g, rate, start, n)
      == if h != g || c != e then 0.0 else 2.0 * ColumnEnergy(h, rate, n)
  {
    hide Rotates, WaveSum, Whole;
    ConstantSums(t, rate, start, n);
    FullTurnSums(t, rate, start, n);
    if 0 < h + g < rate {
      WholeSumsVanish(t, h + g, rate, start, n);
    }
    if h > g {
      WholeSumsVanish(t, h - g, rate, start, n);
    }
  }

  // ---------- acceptance ----------

  /** One or two different tones from zero to half the rate, each filling the window with whole periods. */
  predicate PeriodicProbe(frequencies: seq<nat>, rate: nat, n: nat) {
    && rate > 0 && 1 <= |frequencies| <= 2 && (|frequencies| == 2 ==> frequencies[0] != frequencies[1])
    && forall i :: 0 <= i < |frequencies| ==> 2 * frequencies[i] <= rate && Whole(n, frequencies[i], rate)
  }

  /** The columns of one component fill the window. */
  lemma ComponentFills(hz: nat, rate: nat, n: nat)
    requires rate > 0 && 2 * hz <= rate && Whole(n, hz, rate)
    ensures var columns := ComponentColumns(hz, rate);
      forall i :: 0 <= i < |columns| ==> columns[i].hz == hz && Fills(columns[i], rate, n)
  {
  }

  ghost predicate Different(columns: seq<Column>) {
    forall i, j :: 0 <= i < |columns| && 0 <= j < |columns| && i != j ==> columns[i] != columns[j]
  }

  lemma DifferentParts(a: seq<Column>, b: seq<Column>)
    requires Different(a) && Different(b)
    requires forall i, j :: 0 <= i < |a| && 0 <= j < |b| ==> a[i].hz != b[j].hz
    ensures Different(a + b)
  {
  }

  /** The columns of the first k components. */
  lemma {:induction false} PeriodicLaid(frequencies: seq<nat>, rate: nat, n: nat, k: nat)
    requires PeriodicProbe(frequencies, rate, n) && k <= |frequencies|
    ensures var laid := LaidColumns(frequencies, rate, k);
      && Different(laid)
      && forall i :: 0 <= i < |laid| ==> laid[i].hz in frequencies[..k] && Fills(laid[i], rate, n)
  {
    hide Whole, Boundary, ComponentColumns, Different, Fills;
    if k == 0 {
      NothingDifferent();
    } else {
      var f, before := frequencies[k - 1], LaidColumns(frequencies, rate, k - 1);
      PeriodicLaid(frequencies, rate, n, k - 1);
      ComponentFills(f, rate, n);
      ComponentDifferent(f, rate);
      assert forall i :: 0 <= i < |before| ==> before[i].hz != f;
      DifferentParts(before, ComponentColumns(f, rate));
    }
  }

  lemma NothingDifferent()
    ensures Different([])
  {
  }

  lemma ComponentDifferent(hz: nat, rate: nat)
    ensures Different(ComponentColumns(hz, rate)) && Different([Column(0, true)])
  {
  }

  lemma PeriodicColumns(frequencies: seq<nat>, rate: nat, n: nat)
    requires PeriodicProbe(frequencies, rate, n)
    ensures var columns := FitColumns(frequencies, rate);
      |columns| <= MAX_COLUMNS && Different(columns) && forall i :: 0 <= i < |columns| ==> Fills(columns[i], rate, n)
  {
    hide Whole, Boundary, Different, Fills, LaidColumns;
    var laid := LaidColumns(frequencies, rate, |frequencies|);
    PeriodicLaid(frequencies, rate, n, |frequencies|);
    if 0 !in frequencies {
      assert frequencies[..|frequencies|] == frequencies;
      ConstantFills(rate, n);
      ComponentDifferent(0, rate);
      DifferentParts(laid, [Column(0, true)]);
    } else {
      assert FitColumns(frequencies, rate) == laid;
    }
  }

  lemma ConstantFills(rate: nat, n: nat)
    requires rate > 0
    ensures Fills(Column(0, true), rate, n)
  {
    assert n * 0 == 0;
  }

  /** A probe of one or two tones that fill the window with whole periods is always accepted. */
  lemma PeriodicAccepted(t: Waves, frequencies: seq<nat>, rate: nat, start: nat, n: nat)
    requires Rotates(t) && PeriodicProbe(frequencies, rate, n) && n > 0
    ensures |FitColumns(frequencies, rate)| <= MAX_COLUMNS
    ensures Fittable(t, FitColumns(frequencies, rate), rate, start, n)
  {
    var columns := FitColumns(frequencies, rate);
    PeriodicColumns(frequencies, rate, n);
    var d := WindowDesign(t, columns, rate, start, n);
    hide PeriodicProbe, Rotates, Fills, FitColumns, WindowDesign, Gram, Accepts, NormalMatrix, Boundary;
    forall i, j | 0 <= i < |columns| && 0 <= j < |columns|
      ensures Gram(d, i, j, n) == if i != j then 0.0 else ColumnEnergy(columns[i].hz, rate, n)
    {
      if columns[j].hz <= columns[i].hz {
        ColumnsOrthogonal(t, columns, rate, start, n, i, j);
      } else {
        ColumnsOrthogonal(t, columns, rate, start, n, j, i);
        GramSymmetric(d, i, j, n);
      }
    }
    OrthogonalAccepted(d, FitRule(Floor(n)), |columns|);
  }

  /** A constant alone is always accepted. */
  lemma ConstantAccepted(t: Waves, rate: nat, start: nat, n: nat)
    requires rate > 0 && n > 0
    ensures FitColumns([0], rate) == [Column(0, true)]
    ensures Fittable(t, FitColumns([0], rate), rate, start, n)
  {
    assert LaidColumns([0], rate, 0) == [];
    var columns := FitColumns([0], rate);
    assert columns == [Column(0, true)];
    var d := WindowDesign(t, columns, rate, start, n);
    hide Accepts, NormalMatrix;
    OnesGram(d, n);
    OrthogonalAccepted(d, FitRule(Floor(n)), |columns|);
  }

  lemma {:induction false} OnesGram(d: seq<seq<real>>, n: nat)
    requires n <= |d| && forall k :: 0 <= k < n ==> |d[k]| > 0 && d[k][0] == 1.0
    ensures Gram(d, 0, 0, n) == n as real
  {
    if n > 0 {
      OnesGram(d, n - 1);
    }
  }

  /** A tone at half the rate beside the constant: over any window the two columns nearly cancel out. */
  lemma {:induction false} AlternatingGram(d: seq<seq<real>>, start: nat, n: nat)
    requires n <= |d| && forall k :: 0 <= k < n ==> |d[k]| > 1 && d[k][1] == 1.0
    requires forall k :: 0 <= k < n ==> d[k][0] == if (start + k) % 2 == 0 then 1.0 else -1.0
    ensures Gram(d, 0, 0, n) == n as real && Gram(d, 1, 1, n) == n as real && Gram(d, 1, 0, n) == Gram(d, 0, 1, n)
    ensures Gram(d, 0, 1, n) == if n % 2 == 0 then 0.0 else if start % 2 == 0 then 1.0 else -1.0
  {
    if n > 0 {
      AlternatingGram(d, start, n - 1);
    }
  }

  /** A tone at half the rate is accepted over every window of two frames or more, whole periods or not. */
  lemma HalfRateAccepted(t: Waves, hz: nat, start: nat, n: nat)
    requires hz > 0 && n >= 2
    ensures FitColumns([hz], 2 * hz) == [Column(hz, true), Column(0, true)]
    ensures Fittable(t, FitColumns([hz], 2 * hz), 2 * hz, start, n)
  {
    var rate := 2 * hz;
    assert LaidColumns([hz], rate, 0) == [];
    var columns := FitColumns([hz], rate);
    assert columns == [Column(hz, true), Column(0, true)];
    var d, w := WindowDesign(t, columns, rate, start, n), |columns|;
    AlternatingGram(d, start, n);
    var g := NormalMatrix(d, w, n);
    TwoBeside(g[0], 0);
    TwoBeside(g[1], 1);
    hide Accepts, Gram, Beside;
    assert Dominant(g, Floor(n), w);
    DominantAccepted(g, FitRule(Floor(n)), w);
  }

  lemma TwoBeside(u: seq<real>, k: nat)
    requires |u| == 2 && k < 2
    ensures Beside(u, k, 2) == Abs(u[1 - k])
  {
    assert Beside(u, k, 1) == Beside(u, k, 0) + if k == 0 then 0.0 else Abs(u[0]);
  }

  /** The window of this channel, when there is one, holds exactly these tones and a constant. */
  ghost predicate HoldsProbe(t: Waves, samples: seq<real>, channels: nat, channel: nat, rate: nat,
      frequencies: seq<nat>, start: nat, frames: nat, tones: seq<Tone>, dc: real)
    requires rate > 0
  {
    frames > 0 ==>
      InBuffer(samples, channels, channel, start, frames)
      && ExactProbe(ChannelWindow(samples, channels, channel, start, frames), t, tones, dc, frequencies, rate, start)
  }

  /** What the fit publishes for such a window. */
  lemma ProbeResolved(t: Waves, samples: seq<real>, channels: nat, channel: nat, rate: nat, frequencies: seq<nat>,
      start: nat, fit: Fit, e: Explanation, tones: seq<Tone>, dc: real)
    requires Trigonometric(t) && rate > 0 && fit.frames == |e.window| > 0
    requires HoldsProbe(t, samples, channels, channel, rate, frequencies, start, fit.frames, tones, dc)
    requires Explains(e, t, samples, channels, channel, rate, frequencies, start)
    requires BestFit(e.design, e.window, e.coeffs, MeanTimes(fit)) && Published(e, t, fit)
    ensures |tones| == |fit.components| == |frequencies| && fit.residualMeanSquare == 0.0
    ensures forall i :: 0 <= i < |frequencies| ==>
      fit.components[i] == Seen(t, tones[i], frequencies[i], rate)
  {
    assert |e.components| == |frequencies|;
    ExplainedWindow(t, samples, channels, channel, rate, frequencies, start, e);
    hide Mul, Trigonometric, Explains, BestFit, Describe, Boundary, InBuffer, MeanTimes, TonesAt, Seen;
    TonesRecovered(t, samples, channels, channel, rate, frequencies, start, fit, e, tones, dc);
    MeanOfNothing(fit);
  }

  /** A window that holds exactly such a probe and a constant: the fit returns, leaves nothing over, and finds
    * of every tone all that can be seen.
    */
  method ResolveProbe(t: Waves, samples: seq<real>, channels: nat, channel: nat, rate: nat, frequencies: seq<nat>,
      start: nat, count: nat, ghost tones: seq<Tone>, ghost dc: real) returns (r: Result<Fit, string>)
    requires Rotates(t) && !BadGeometry(samples, channels, channel, rate, frequencies)
    requires PeriodicProbe(frequencies, rate, WindowFrames(samples, channels, start, count))
    requires HoldsProbe(t, samples, channels, channel, rate, frequencies, start,
      WindowFrames(samples, channels, start, count), tones, dc)
    ensures r.Ok? <==> WindowFrames(samples, channels, start, count) >= MINIMUM_FRAMES
    ensures r.Ok? ==> |tones| == |r.value.components| == |frequencies| && r.value.residualMeanSquare == 0.0
    ensures r.Ok? ==> forall i :: 0 <= i < |frequencies| ==>
      r.value.components[i] == Seen(t, tones[i], frequencies[i], rate)
  {
    ghost var frames := WindowFrames(samples, channels, start, count);
    if frames > 0 {
      PeriodicAccepted(t, frequencies, rate, start, frames);
    }
    RotatesIsTrigonometric(t);
    ghost var e;
    assert rate > 0;
    hide BadGeometry, WindowFrames, Fittable, Rotates, Trigonometric, BestFit, Mul, FitColumns, InBuffer, PeriodicProbe,
         HoldsProbe, Explains, Published, Dependent, Seen;
    r, e := FitComponents(t, samples, channels, channel, rate, frequencies, start, count);
    if r.Ok? {
      ProbeResolved(t, samples, channels, channel, rate, frequencies, start, r.value, e, tones, dc);
    }
  }

  lemma MeanOfNothing(fit: Fit)
    requires fit.frames > 0 && MeanTimes(fit) == 0.0
    ensures fit.residualMeanSquare == 0.0
  {
    ZeroProduct(fit.frames as real, fit.residualMeanSquare);
  }
}
