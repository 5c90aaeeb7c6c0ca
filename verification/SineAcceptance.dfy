/** The three-column sine fit accepts every tone that fills its window with whole periods. */
module SineAcceptance {
  import opened Arithmetic
  import opened ComponentFit
  import opened Elimination
  import opened FitAcceptance
  import opened GaussJordan
  import opened LeastSquares
  import opened Minors
  import opened Outcomes
  import opened SineFit
  import opened ToneRecovery
  import opened Vectors
  import opened WholePeriods
  import opened WindowFit

  /** The angle per frame of a tone. */
  function Omega(t: Waves, hz: nat, rate: nat): real
    requires rate > 0
  {
    Turn(t, hz, rate)
  }

  /** Unreduced angles of a tone have the sine and cosine of the reduced ones. */
  lemma {:induction false} TurnsBack(t: Waves, x: nat, rate: nat)
    requires rate > 0 && Rotates(t)
    ensures t.cos(Turn(t, x, rate)) == t.cos(Phase(t, x, rate)) && t.sin(Turn(t, x, rate)) == t.sin(Phase(t, x, rate))
    decreases x
  {
    hide Turn, Rotates;
    if x < rate {
      assert x % rate == x;
    } else {
      var y := x - rate;
      TurnsBack(t, y, rate);
      SameResidue(x, y, rate, 1);
      TurnsAdd(t, x, 0, y, rate);
      TurnParts(t, rate);
      TurnBack(t, Turn(t, x, rate));
    }
  }

  lemma FrameAngle(t: Waves, hz: nat, rate: nat, frame: nat)
    requires rate > 0
    ensures Omega(t, hz, rate) * frame as real == Turn(t, frame * hz, rate)
  {
    var p, d := Omega(t, hz, rate), rate as real;
    assert p * d == t.tau * hz as real;
    assert (frame * hz) as real == frame as real * hz as real;
    assert (p * frame as real) * d == t.tau * (frame * hz) as real;
  }

  function SineColumns(hz: nat): seq<Column> {
    [Column(hz, false), Column(hz, true), Column(0, true)]
  }

  /** Both fits see the same columns. */
  lemma SameRow(t: Waves, hz: nat, rate: nat, frame: nat)
    requires 0 < 2 * hz < rate && Rotates(t)
    ensures SineBasis(t, Omega(t, hz, rate), frame) == BasisAt(t, SineColumns(hz), rate, frame)[..3]
  {
    hide Turn, Rotates, Omega;
    FrameAngle(t, hz, rate, frame);
    TurnsBack(t, frame * hz, rate);
    var basis := BasisAt(t, SineColumns(hz), rate, frame);
    assert basis[0] == t.sin(Phase(t, frame * hz, rate));
    assert basis[1] == t.cos(Phase(t, frame * hz, rate));
    assert basis[2] == 1.0;
  }

  lemma SameRows(t: Waves, hz: nat, rate: nat, start: nat, n: nat)
    requires 0 < 2 * hz < rate && Rotates(t)
    ensures forall k :: 0 <= k < n ==>
      SineDesign(t, Omega(t, hz, rate), start, n)[k] == WindowDesign(t, SineColumns(hz), rate, start, n)[k][..3]
  {
    hide Omega, SineBasis, BasisAt, Rotates;
    forall k | 0 <= k < n
      ensures SineDesign(t, Omega(t, hz, rate), start, n)[k] == WindowDesign(t, SineColumns(hz), rate, start, n)[k][..3]
    {
      SameRow(t, hz, rate, start + k);
    }
  }

  lemma {:induction false} SameGram(d: seq<seq<real>>, e: seq<seq<real>>, i: nat, j: nat, n: nat)
    requires n <= |d| && n <= |e| && i < 3 && j < 3
    requires forall k :: 0 <= k < n ==> |d[k]| == 3 && |e[k]| >= 3 && d[k] == e[k][..3]
    ensures Gram(d, i, j, n) == Gram(e, i, j, n)
  {
    if n > 0 {
      SameGram(d, e, i, j, n - 1);
    }
  }

  /** A tone that fills the window with whole periods is accepted. */
  lemma PeriodicSineAccepted(t: Waves, hz: nat, rate: nat, start: nat, n: nat)
    requires 0 < 2 * hz < rate && Rotates(t) && Whole(n, hz, rate) && n > 0
    ensures SineFittable(t, Omega(t, hz, rate), start, n)
  {
    var columns, w := SineColumns(hz), 3;
    var d, e := SineDesign(t, Omega(t, hz, rate), start, n), WindowDesign(t, columns, rate, start, n);
    SameRows(t, hz, rate, start, n);
    ConstantFills(rate, n);
    assert forall i :: 0 <= i < 3 ==> Fills(columns[i], rate, n);
    hide Rotates, Fills, SineDesign, WindowDesign, Gram, Accepts, GoodMinors, NormalMatrix, Whole, Omega;
    forall i, j | 0 <= i < w && 0 <= j < w
      ensures Gram(d, i, j, n) == if i != j then 0.0 else if i == 2 then n as real else n as real / 2.0
    {
      SameGram(d, e, i, j, n);
      if columns[j].hz <= columns[i].hz {
        ColumnsOrthogonal(t, columns, rate, start, n, i, j);
      } else {
        ColumnsOrthogonal(t, columns, rate, start, n, j, i);
        GramSymmetric(e, i, j, n);
      }
    }
    OrthogonalAccepted(d, TWIN_RULE, w);
    MinorsDecide(NormalMatrix(d, w, n), TWIN_RULE, w);
  }

  // ---------- recovery ----------

  /** Frame n of a tone and a constant. */
  ghost function ProbeSample(t: Waves, omega: real, tone: Tone, dc: real, n: nat): real {
    dc + Mul(tone.amplitude, t.sin(omega * n as real + tone.phase))
  }

  ghost predicate HoldsTone(t: Waves, omega: real, y: seq<real>, start: nat, tone: Tone, dc: real) {
    forall k :: 0 <= k < |y| ==> y[k] == ProbeSample(t, omega, tone, dc, start + k)
  }

  ghost function SineTruth(t: Waves, tone: Tone, dc: real): (truth: seq<real>)
    ensures |truth| == 3
  {
    [Mul(tone.amplitude, t.cos(tone.phase)), Mul(tone.amplitude, t.sin(tone.phase)), dc]
  }

  lemma ProbeRow(t: Waves, omega: real, tone: Tone, dc: real, n: nat)
    requires Trigonometric(t)
    ensures ProbeSample(t, omega, tone, dc, n) == Dot(SineTruth(t, tone, dc), SineBasis(t, omega, n), 3)
  {
    ToneSplits(t, tone, omega * n as real);
    hide Mul, Trigonometric;
    DotThree(SineTruth(t, tone, dc), SineBasis(t, omega, n));
    MulByOne(dc);
  }

  /** A published sine fit of exactly a tone and a constant leaves nothing over and finds the amplitude. */
  lemma SineRecovered(t: Waves, omega: real, samples: seq<real>, start: nat, fit: SineFit, coeffs: seq<real>,
      d: seq<seq<real>>, y: seq<real>, tone: Tone, dc: real)
    requires Trigonometric(t) && start + |y| <= |samples| && |y| > 0 && Stretch(t, omega, samples, start, d, y)
    requires |coeffs| == 3 && BestFit(d, y, coeffs, Total(|y|, fit.residualMeanSquare))
    requires fit.amplitudeSquared == Mul(coeffs[0], coeffs[0]) + Mul(coeffs[1], coeffs[1])
    requires HoldsTone(t, omega, y, start, tone, dc)
    ensures fit.residualMeanSquare == 0.0 && fit.amplitudeSquared == Mul(tone.amplitude, tone.amplitude)
  {
    var truth := SineTruth(t, tone, dc);
    forall k | 0 <= k < |d| ensures y[k] == Dot(truth, d[k], 3) {
      ProbeRow(t, omega, tone, dc, start + k);
    }
    assert OnUnitCircle(t, tone.phase);
    hide Mul, Trigonometric, SineBasis, Dot, ProbeSample, SquaredError;
    ExactRecovery(d, y, coeffs, truth, 3);
    PolarAmplitude(tone.amplitude, t.sin(tone.phase), t.cos(tone.phase));
    NoResidual(|y|, fit.residualMeanSquare);
  }

  lemma NoResidual(n: nat, mean: real)
    requires n > 0 && Total(n, mean) == 0.0
    ensures mean == 0.0
  {
    ZeroProduct(n as real, mean);
  }

  lemma StretchOf(t: Waves, omega: real, samples: seq<real>, start: nat, d: seq<seq<real>>, y: seq<real>)
    requires start + |y| <= |samples| && Stretch(t, omega, samples, start, d, y)
    ensures y == samples[start..start + |y|]
  {
  }

  /** An accepted window of a tone and a constant. */
  method FitTone(t: Waves, samples: seq<real>, omega: real, skip: nat, take: nat, ghost tone: Tone, ghost dc: real)
    returns (r: Result<SineFit, string>)
    requires Trigonometric(t)
    requires var frames := TakenFrames(|samples|, skip, take);
      frames > 0 ==>
        && SineFittable(t, omega, skip, frames) && skip + frames <= |samples|
        && HoldsTone(t, omega, samples[skip..skip + frames], skip, tone, dc)
    ensures r.Ok? <==> TakenFrames(|samples|, skip, take) >= MINIMUM_FRAMES
    ensures r.Ok? ==>
      r.value.residualMeanSquare == 0.0 && r.value.amplitudeSquared == Mul(tone.amplitude, tone.amplitude)
  {
    ghost var coeffs, d, y := [], [], [];
    hide Trigonometric, BestFit, HoldsTone, SineFittable, SineDependent, Mul, Stretch, TakenFrames;
    r, coeffs, d, y := FitSine(t, samples, omega, skip, take);
    if r.Ok? {
      StretchOf(t, omega, samples, skip, d, y);
      SineRecovered(t, omega, samples, skip, r.value, coeffs, d, y, tone, dc);
    }
  }

  /** On a tone that fills the window with whole periods, and a constant, the sine fit returns exactly when the window
    * is long enough, leaves nothing over and finds the amplitude.
    */
  method ResolveSine(t: Waves, samples: seq<real>, hz: nat, rate: nat, skip: nat, take: nat, ghost tone: Tone,
      ghost dc: real) returns (r: Result<SineFit, string>)
    requires 0 < 2 * hz < rate && Rotates(t) && Whole(TakenFrames(|samples|, skip, take), hz, rate)
    requires skip <= |samples| ==>
      var frames := TakenFrames(|samples|, skip, take);
      HoldsTone(t, Omega(t, hz, rate), samples[skip..skip + frames], skip, tone, dc)
    ensures r.Ok? <==> TakenFrames(|samples|, skip, take) >= MINIMUM_FRAMES
    ensures r.Ok? ==>
      r.value.residualMeanSquare == 0.0 && r.value.amplitudeSquared == Mul(tone.amplitude, tone.amplitude)
  {
    ghost var frames := TakenFrames(|samples|, skip, take);
    RotatesIsTrigonometric(t);
    if frames > 0 {
      PeriodicSineAccepted(t, hz, rate, skip, frames);
    }
    hide Rotates, Trigonometric, Whole, Omega, HoldsTone, SineFittable, Mul;
    r := FitTone(t, samples, Omega(t, hz, rate), skip, take, tone, dc);
  }
}
