/** What the fit is for: exact tones come back with their amplitude, and folded tones are the same samples. */
module ToneRecovery {
  import opened Arithmetic
  import opened ComponentFit
  import opened LeastSquares
  import opened Outcomes
  import opened Vectors
  import opened WindowFit

  ghost predicate AddsAngles(t: Waves, a: real, b: real) {
    t.sin(a + b) == Mul(t.sin(a), t.cos(b)) + Mul(t.cos(a), t.sin(b))
  }

  ghost predicate OnUnitCircle(t: Waves, a: real) {
    Mul(t.sin(a), t.sin(a)) + Mul(t.cos(a), t.cos(a)) == 1.0
  }

  /** The identities of sine and cosine that the analysis rests on. */
  ghost predicate Trigonometric(t: Waves) {
    && (forall a, b :: AddsAngles(t, a, b)) && (forall a :: OnUnitCircle(t, a))
    && t.sin(t.tau * 0.5) == 0.0 && t.cos(t.tau * 0.5) == -1.0
  }

  /** One oscillator of a probe signal. */
  datatype Tone = Tone(amplitude: real, phase: real)

  /** A tone's contribution at a frame. */
  ghost function ToneAt(t: Waves, tone: Tone, hz: nat, rate: nat, frame: nat): real
    requires rate > 0
  {
    Mul(tone.amplitude, t.sin(Angle(t, frame, rate, hz) + tone.phase))
  }

  ghost function TonesAt(t: Waves, tones: seq<Tone>, frequencies: seq<nat>, rate: nat, frame: nat, n: nat): real
    requires rate > 0 && n <= |tones| && n <= |frequencies|
  {
    if n == 0 then 0.0
    else TonesAt(t, tones, frequencies, rate, frame, n - 1) + ToneAt(t, tones[n - 1], frequencies[n - 1], rate, frame)
  }

  /** The coefficients at which the columns of one component reproduce its tone; at zero and half the rate the
    * phase scales it.
    */
  ghost function ToneCoefficients(t: Waves, tone: Tone, hz: nat, rate: nat): seq<real> {
    if Boundary(hz, rate) then [Mul(tone.amplitude, t.sin(tone.phase))]
    else [Mul(tone.amplitude, t.cos(tone.phase)), Mul(tone.amplitude, t.sin(tone.phase))]
  }

  ghost function TrueCoefficients(t: Waves, tones: seq<Tone>, frequencies: seq<nat>, rate: nat, n: nat): (c: seq<real>)
    requires n <= |tones| && n <= |frequencies|
    ensures |c| == ColumnsBefore(frequencies, rate, n)
  {
    if n == 0 then []
    else TrueCoefficients(t, tones, frequencies, rate, n - 1) + ToneCoefficients(t, tones[n - 1], frequencies[n - 1],
      rate)
  }

  lemma {:induction false} TrueCoefficientAt(t: Waves, tones: seq<Tone>, frequencies: seq<nat>, rate: nat, i: nat,
      n: nat)
    requires i < n <= |tones| && n <= |frequencies|
    ensures ColumnsBefore(frequencies, rate, i + 1) <= ColumnsBefore(frequencies, rate, n)
    ensures var first, next := ColumnsBefore(frequencies, rate, i), ColumnsBefore(frequencies, rate, i + 1);
      TrueCoefficients(t, tones, frequencies, rate, n)[first..next]
         == ToneCoefficients(t, tones[i], frequencies[i], rate)
  {
    hide Mul, ComponentColumns;
    if i < n - 1 {
      TrueCoefficientAt(t, tones, frequencies, rate, i, n - 1);
      var c, c' := TrueCoefficients(t, tones, frequencies, rate, n - 1),
        TrueCoefficients(t, tones, frequencies, rate, n);
      assert c'[..|c|] == c;
      SlicePrefix(c', c, ColumnsBefore(frequencies, rate, i), ColumnsBefore(frequencies, rate, i + 1));
    }
  }

  lemma SlicePrefix(c': seq<real>, c: seq<real>, i: nat, j: nat)
    requires i <= j <= |c| <= |c'| && c'[..|c|] == c
    ensures c'[i..j] == c[i..j]
  {
    assert c'[..|c|][i..j] == c'[i..j];
  }

  /** What a fit can see of a tone: its amplitude and phase, or at zero and half the rate only amplitude times the
    * sine of the phase.
    */
  ghost function Seen(t: Waves, tone: Tone, hz: nat, rate: nat): Component {
    var c, s := Mul(tone.amplitude, t.cos(tone.phase)), Mul(tone.amplitude, t.sin(tone.phase));
    if Boundary(hz, rate) then Component(Mul(s, s), None, Mul(s, s))
    else
      var power := Mul(tone.amplitude, tone.amplitude);
      Component(power, Some(t.atan2(s, c)), power / 2.0)
  }

  /** A sinusoid with a phase is a combination of the sine and the cosine columns. */
  lemma ToneSplits(t: Waves, tone: Tone, angle: real)
    requires Trigonometric(t)
    ensures Mul(tone.amplitude, t.sin(angle + tone.phase))
         == Mul(Mul(tone.amplitude, t.cos(tone.phase)), t.sin(angle))
            + Mul(Mul(tone.amplitude, t.sin(tone.phase)), t.cos(angle))
  {
    var a, s, c, ps, pc := tone.amplitude, t.sin(angle), t.cos(angle), t.sin(tone.phase), t.cos(tone.phase);
    assert AddsAngles(t, angle, tone.phase);
    hide Mul;
    MulSplits(a, s, pc, c, ps);
  }

  lemma MulSplits(a: real, s: real, pc: real, c: real, ps: real)
    ensures Mul(a, Mul(s, pc) + Mul(c, ps)) == Mul(Mul(a, pc), s) + Mul(Mul(a, ps), c)
  {
    assert a * (s * pc + c * ps) == (a * pc) * s + (a * ps) * c;
  }

  /** At zero and at half the rate the samples of a tone all have one magnitude, which its phase decides. */
  lemma BoundaryTone(t: Waves, tone: Tone, hz: nat, rate: nat, frame: nat)
    requires rate > 0 && Trigonometric(t) && Boundary(hz, rate)
    ensures ToneAt(t, tone, hz, rate, frame)
      == Mul(Mul(tone.amplitude, t.sin(tone.phase)), BasisValue(t, Column(hz, true), rate, frame))
  {
    BoundaryAngle(t, frame, rate, hz);
    var v := Mul(tone.amplitude, t.sin(tone.phase));
    MulByOne(v);
    if hz != 0 && frame % 2 == 1 {
      assert AddsAngles(t, t.tau * 0.5, tone.phase);
      HalfTurnSine(tone.amplitude, t.sin(tone.phase), t.cos(tone.phase));
    }
  }

  lemma HalfTurnSine(a: real, s: real, c: real)
    ensures Mul(a, Mul(0.0, c) + Mul(-1.0, s)) == Mul(Mul(a, s), -1.0)
  {
  }

  lemma BoundaryAngle(t: Waves, frame: nat, rate: nat, hz: nat)
    requires rate > 0 && Boundary(hz, rate)
    ensures Angle(t, frame, rate, hz) == if hz != 0 && frame % 2 == 1 then t.tau * 0.5 else 0.0
  {
    hide Turn;
    TurnParts(t, rate);
    var residue := (frame * hz) % rate;
    assert Angle(t, frame, rate, hz) == Turn(t, residue, rate);
    if hz == 0 {
      ZeroFrequency(frame, rate, hz);
    } else {
      assert rate == 2 * hz;
      BoundaryResidue(frame, hz);
      HalfTurn(t, hz);
    }
  }

  lemma ZeroFrequency(frame: nat, rate: nat, hz: nat)
    requires rate > 0
    ensures hz == 0 ==> (frame * hz) % rate == 0
  {
    assert hz == 0 ==> frame * hz == 0;
  }

  lemma BoundaryResidue(frame: nat, hz: nat)
    requires hz > 0
    ensures (frame * hz) % (2 * hz) == if frame % 2 == 1 then hz else 0
  {
    var half, rest := frame / 2, if frame % 2 == 1 then hz else 0;
    assert frame == 2 * half + frame % 2;
    assert frame * hz == half * (2 * hz) + rest by {
      assert (2 * half) * hz == half * (2 * hz);
    }
    DivModUnique(frame * hz, 2 * hz, half, rest);
  }

  lemma TurnParts(t: Waves, rate: nat)
    requires rate > 0
    ensures Turn(t, 0, rate) == 0.0
  {
  }

  lemma HalfTurn(t: Waves, hz: nat)
    requires hz > 0
    ensures Turn(t, hz, 2 * hz) == t.tau * 0.5
  {
    hide Share;
    assert (2 * hz) as real == 2.0 * hz as real;
    HalfShare(t.tau, hz as real);
  }

  lemma HalfShare(tau: real, x: real)
    requires x > 0.0
    ensures Share(tau, x, 2.0 * x) == tau * 0.5
  {
    var p := Share(tau, x, 2.0 * x);
    assert p * (2.0 * x) == tau * x;
    assert (p - tau * 0.5) * x == 0.0;
  }

  /** The basis values of one component's columns at a frame. */
  ghost function ComponentBasis(t: Waves, hz: nat, rate: nat, frame: nat): seq<real>
    requires rate > 0
  {
    if Boundary(hz, rate) then [BasisValue(t, Column(hz, true), rate, frame)]
    else [t.sin(Angle(t, frame, rate, hz)), t.cos(Angle(t, frame, rate, hz))]
  }

  lemma BasisSlice(t: Waves, columns: seq<Column>, rate: nat, frame: nat, part: (nat, bool), hz: nat)
    requires rate > 0 && |columns| <= MAX_COLUMNS && Placed(columns, part, hz, rate)
    ensures BasisAt(t, columns, rate, frame)[part.0..part.0 + |ComponentColumns(hz, rate)|]
      == ComponentBasis(t, hz, rate, frame)
  {
    hide Angle;
    assert columns[part.0 + 0] == ComponentColumns(hz, rate)[0];
    if !Boundary(hz, rate) {
      assert columns[part.0 + 1] == ComponentColumns(hz, rate)[1];
    }
  }

  lemma DotStep(u: seq<real>, v: seq<real>, n: nat)
    requires n < |u| && n < |v|
    ensures Dot(u, v, n + 1) == Dot(u, v, n) + Mul(u[n], v[n])
  {
    hide Mul;
  }

  /** One component's columns, weighted by the true coefficients, add its tone. */
  lemma ToneStep(t: Waves, tone: Tone, hz: nat, rate: nat, frame: nat, truth: seq<real>, basis: seq<real>,
      first: nat, next: nat)
    requires rate > 0 && Trigonometric(t)
    requires first <= next <= |truth| && next <= |basis|
    requires truth[first..next] == ToneCoefficients(t, tone, hz, rate)
    requires basis[first..next] == ComponentBasis(t, hz, rate, frame)
    ensures Dot(truth, basis, next) == Dot(truth, basis, first) + ToneAt(t, tone, hz, rate, frame)
  {
    hide Mul, Angle, Trigonometric, BasisValue, Boundary, Dot;
    DotStep(truth, basis, first);
    assert truth[first] == truth[first..next][0] && basis[first] == basis[first..next][0];
    if Boundary(hz, rate) {
      BoundaryTone(t, tone, hz, rate, frame);
    } else {
      DotStep(truth, basis, first + 1);
      ToneSplits(t, tone, Angle(t, frame, rate, hz));
      assert truth[first + 1] == truth[first..next][1] && basis[first + 1] == basis[first..next][1];
    }
  }

  /** Where a plan puts component i. */
  lemma PlannedSpan(columns: seq<Column>, components: seq<(nat, bool)>, frequencies: seq<nat>, rate: nat, i: nat)
    requires i < |frequencies| && Planned(columns, components, frequencies, rate)
    ensures |components| == |frequencies|
    ensures var first, next := ColumnsBefore(frequencies, rate, i), ColumnsBefore(frequencies, rate, i + 1);
      && next == first + |ComponentColumns(frequencies[i], rate)| && next <= |columns|
      && components[i].0 == first && Placed(columns, components[i], frequencies[i], rate)
  {
    assert Placed(columns, components[i], frequencies[i], rate);
    hide ComponentColumns;
  }

  /** Component i adds its tone to what the columns before it produce. */
  lemma ComponentAdds(t: Waves, tones: seq<Tone>, frequencies: seq<nat>, rate: nat, columns: seq<Column>,
                      components: seq<(nat, bool)>, truth: seq<real>, frame: nat, i: nat)
    requires rate > 0 && Trigonometric(t) && |tones| == |frequencies| && i < |frequencies|
    requires |columns| <= MAX_COLUMNS && Planned(columns, components, frequencies, rate)
    requires TrueCoefficients(t, tones, frequencies, rate, |frequencies|) <= truth
    ensures ColumnsBefore(frequencies, rate, i) <= ColumnsBefore(frequencies, rate, i + 1)
    ensures ColumnsBefore(frequencies, rate, i + 1) <= |columns| && ColumnsBefore(frequencies, rate, i + 1) <= |truth|
    ensures Dot(truth, BasisAt(t, columns, rate, frame), ColumnsBefore(frequencies, rate, i + 1))
         == Dot(truth, BasisAt(t, columns, rate, frame), ColumnsBefore(frequencies, rate, i))
            + ToneAt(t, tones[i], frequencies[i], rate, frame)
  {
    hide Mul, Angle, Trigonometric, BasisValue, BasisAt, ToneAt, ToneCoefficients, ComponentBasis, ComponentColumns,
         Boundary, Planned, ColumnsBefore, TrueCoefficients, Dot, Placed;
    var first, next := ColumnsBefore(frequencies, rate, i), ColumnsBefore(frequencies, rate, i + 1);
    PlannedSpan(columns, components, frequencies, rate, i);
    TrueCoefficientAt(t, tones, frequencies, rate, i, |frequencies|);
    SlicePrefix(truth, TrueCoefficients(t, tones, frequencies, rate, |frequencies|), first, next);
    BasisSlice(t, columns, rate, frame, components[i], frequencies[i]);
    ToneStep(t, tones[i], frequencies[i], rate, frame, truth, BasisAt(t, columns, rate, frame), first, next);
  }

  /** On the columns of the first n components the true coefficients produce the first n tones. */
  lemma {:induction false} TrueSignal(t: Waves, tones: seq<Tone>, frequencies: seq<nat>, rate: nat,
      columns: seq<Column>, components: seq<(nat, bool)>, truth: seq<real>, frame: nat, n: nat)
    requires rate > 0 && Trigonometric(t) && |tones| == |frequencies| && n <= |frequencies|
    requires |columns| <= MAX_COLUMNS && Planned(columns, components, frequencies, rate)
    requires TrueCoefficients(t, tones, frequencies, rate, |frequencies|) <= truth
    ensures ColumnsBefore(frequencies, rate, n) <= |columns| && ColumnsBefore(frequencies, rate, n) <= |truth|
    ensures Dot(truth, BasisAt(t, columns, rate, frame), ColumnsBefore(frequencies, rate, n))
         == TonesAt(t, tones, frequencies, rate, frame, n)
  {
    hide Mul, Angle, Trigonometric, BasisAt, ToneAt, Planned, TrueCoefficients;
    if n > 0 {
      TrueSignal(t, tones, frequencies, rate, columns, components, truth, frame, n - 1);
      ComponentAdds(t, tones, frequencies, rate, columns, components, truth, frame, n - 1);
    }
  }

  /** The coefficient vector a probe of exact tones plus a constant was made from. */
  ghost function ProbeCoefficients(t: Waves, tones: seq<Tone>, dc: real, frequencies: seq<nat>, rate: nat): seq<real>
    requires |tones| == |frequencies|
  {
    TrueCoefficients(t, tones, frequencies, rate, |frequencies|) + (if 0 in frequencies then [] else [dc])
  }

  lemma ProbeFrame(t: Waves, tones: seq<Tone>, dc: real, frequencies: seq<nat>, rate: nat, columns: seq<Column>,
                   components: seq<(nat, bool)>, frame: nat)
    requires rate > 0 && Trigonometric(t) && |tones| == |frequencies|
    requires |columns| <= MAX_COLUMNS && Planned(columns, components, frequencies, rate)
    requires 0 in frequencies ==> dc == 0.0
    ensures |ProbeCoefficients(t, tones, dc, frequencies, rate)| == |columns|
    ensures Dot(ProbeCoefficients(t, tones, dc, frequencies, rate), BasisAt(t, columns, rate, frame), |columns|)
         == dc + TonesAt(t, tones, frequencies, rate, frame, |frequencies|)
  {
    var truth, basis := ProbeCoefficients(t, tones, dc, frequencies, rate), BasisAt(t, columns, rate, frame);
    if 0 !in frequencies {
      assert basis[|columns| - 1] == 1.0 && truth[|columns| - 1] == dc;
    }
    hide Mul, Angle, BasisAt, TrueCoefficients, TonesAt, Trigonometric, Dot;
    TrueSignal(t, tones, frequencies, rate, columns, components, truth, frame, |frequencies|);
    if 0 !in frequencies {
      var last := |columns| - 1;
      MulByOne(dc);
      DotStep(truth, basis, last);
    }
  }

  lemma MulByOne(v: real)
    ensures Mul(v, 1.0) == v
  {
  }

  /** The window holds the requested tones and a constant, and nothing else. */
  ghost predicate ExactProbe(window: seq<real>, t: Waves, tones: seq<Tone>, dc: real, frequencies: seq<nat>,
      rate: nat, start: nat)
    requires rate > 0
  {
    && |tones| == |frequencies| && (0 in frequencies ==> dc == 0.0)
    && forall k :: 0 <= k < |window| ==>
      window[k] == dc + TonesAt(t, tones, frequencies, rate, start + k, |frequencies|)
  }

  /** A fitted probe made of exact tones at the requested frequencies and a constant is resolved without error. */
  lemma TonesRecovered(t: Waves, samples: seq<real>, channels: nat, channel: nat, rate: nat, frequencies: seq<nat>,
      start: nat, fit: Fit, e: Explanation, tones: seq<Tone>, dc: real)
    requires Trigonometric(t) && rate > 0 && InBuffer(samples, channels, channel, start, |e.window|)
    requires Explains(e, t, samples, channels, channel, rate, frequencies, start)
    requires BestFit(e.design, e.window, e.coeffs, MeanTimes(fit)) && Published(e, t, fit)
    requires ExactProbe(e.window, t, tones, dc, frequencies, rate, start)
    ensures MeanTimes(fit) == 0.0
    ensures forall i :: 0 <= i < |frequencies| ==>
      fit.components[i] == Seen(t, tones[i], frequencies[i], rate)
  {
    assert |tones| == |frequencies| == |e.components|;
    hide Mul, Angle, SampleAt, BasisAt, MeanTimes, Trigonometric, InBuffer, BasisValue, TonesAt, Describe, Planned,
         ExactProbe, Orthogonal, StrictlyBest, Boundary, ProbeCoefficients, ComponentColumns, Seen;
    var truth := ProbeCoefficients(t, tones, dc, frequencies, rate);
    ProbeIsExact(t, tones, dc, frequencies, rate, start, e);
    ExactRecovery(e.design, e.window, e.coeffs, truth, |e.columns|);
    forall i | 0 <= i < |frequencies|
      ensures fit.components[i] == Seen(t, tones[i], frequencies[i], rate)
    {
      RecoveredComponent(t, tones, dc, frequencies, rate, e.columns, e.components, i);
    }
  }

  lemma ProbeIsExact(t: Waves, tones: seq<Tone>, dc: real, frequencies: seq<nat>, rate: nat, start: nat, e: Explanation)
    requires Trigonometric(t) && rate > 0 && |e.columns| <= MAX_COLUMNS
    requires Planned(e.columns, e.components, frequencies, rate) && Design(e.design, e.window, MAX_COLUMNS)
    requires forall k :: 0 <= k < |e.window| ==> e.design[k] == BasisAt(t, e.columns, rate, start + k)
    requires ExactProbe(e.window, t, tones, dc, frequencies, rate, start)
    ensures |ProbeCoefficients(t, tones, dc, frequencies, rate)| == |e.columns|
    ensures forall k :: 0 <= k < |e.window| ==>
      e.window[k] == Dot(ProbeCoefficients(t, tones, dc, frequencies, rate), e.design[k], |e.columns|)
  {
    hide Mul, Angle, BasisAt, Trigonometric, BasisValue, TonesAt, Planned, ProbeCoefficients;
    ProbeFrame(t, tones, dc, frequencies, rate, e.columns, e.components, 0);
    forall k | 0 <= k < |e.window|
      ensures e.window[k] == Dot(ProbeCoefficients(t, tones, dc, frequencies, rate), e.design[k], |e.columns|)
    {
      ProbeFrame(t, tones, dc, frequencies, rate, e.columns, e.components, start + k);
    }
  }

  lemma RecoveredComponent(t: Waves, tones: seq<Tone>, dc: real, frequencies: seq<nat>, rate: nat, columns: seq<Column>,
                           components: seq<(nat, bool)>, i: nat)
    requires Trigonometric(t) && i < |frequencies| == |tones|
    requires Planned(columns, components, frequencies, rate)
    requires |ProbeCoefficients(t, tones, dc, frequencies, rate)| == |columns|
    ensures var truth := ProbeCoefficients(t, tones, dc, frequencies, rate);
      Describe(t, truth, components[i].0, components[i].1) == Seen(t, tones[i], frequencies[i], rate)
  {
    hide Mul, Describe, Trigonometric, Boundary, Seen;
    var truth := ProbeCoefficients(t, tones, dc, frequencies, rate);
    TrueCoefficientAt(t, tones, frequencies, rate, i, |frequencies|);
    var first, next := ColumnsBefore(frequencies, rate, i), ColumnsBefore(frequencies, rate, i + 1);
    SlicePrefix(truth, TrueCoefficients(t, tones, frequencies, rate, |frequencies|), first, next);
    assert Placed(columns, components[i], frequencies[i], rate);
    RecoveredAmplitude(t, truth, first, tones[i], frequencies[i], rate);
  }

  lemma RecoveredAmplitude(t: Waves, truth: seq<real>, first: nat, tone: Tone, hz: nat, rate: nat)
    requires Trigonometric(t)
    requires first + |ToneCoefficients(t, tone, hz, rate)| <= |truth|
    requires truth[first..first + |ToneCoefficients(t, tone, hz, rate)|] == ToneCoefficients(t, tone, hz, rate)
    ensures Describe(t, truth, first, Boundary(hz, rate)) == Seen(t, tone, hz, rate)
  {
    hide Mul;
    var slice := truth[first..first + |ToneCoefficients(t, tone, hz, rate)|];
    assert truth[first] == slice[0];
    if !Boundary(hz, rate) {
      assert truth[first + 1] == slice[1];
      var s, c := t.sin(tone.phase), t.cos(tone.phase);
      assert OnUnitCircle(t, tone.phase);
      PolarAmplitude(tone.amplitude, s, c);
    }
  }

  lemma PolarAmplitude(a: real, s: real, c: real)
    requires Mul(s, s) + Mul(c, c) == 1.0
    ensures Mul(Mul(a, c), Mul(a, c)) + Mul(Mul(a, s), Mul(a, s)) == Mul(a, a)
  {
    assert (a * c) * (a * c) + (a * s) * (a * s) == (a * a) * (s * s + c * c);
  }

  // ---------- folded frequencies ----------

  ghost predicate Reflects(t: Waves, a: real) {
    t.cos(t.tau - a) == t.cos(a) && t.sin(t.tau - a) == -t.sin(a)
  }

  /** Sine and cosine read backwards around the circle. */
  ghost predicate Circular(t: Waves) {
    t.sin(0.0) == 0.0 && forall a :: Reflects(t, a)
  }

  lemma ResidueProduct(frame: nat, a: nat, b: nat, rate: nat)
    requires rate > 0 && a % rate == b % rate
    ensures (frame * a) % rate == (frame * b) % rate
  {
    var p, q, r := a / rate, b / rate, a % rate;
    assert frame * a == frame * b + (frame * (p - q)) * rate by {
      assert a == b + (p - q) * rate;
      ScaleShift(frame, a, b, p - q, rate);
    }
    SameResidue(frame * a, frame * b, rate, frame * (p - q));
  }

  lemma ScaleShift(frame: nat, a: int, b: int, k: int, rate: nat)
    requires a == b + k * rate
    ensures frame * a == frame * b + (frame * k) * rate
  {
    calc {
      frame * a;
      frame * (b + k * rate);
      frame * b + frame * (k * rate);
      frame * b + (frame * k) * rate;
    }
  }

  /** Residues of a frequency and its mirror image add up to nothing or to a whole turn. */
  lemma MirrorResidue(frame: nat, a: nat, b: nat, rate: nat)
    requires rate > 0 && (a + b) % rate == 0
    ensures var x, y := (frame * a) % rate, (frame * b) % rate; (x == 0 && y == 0) || x == rate - y
  {
    var x, y := (frame * a) % rate, (frame * b) % rate;
    var p, q, k := (frame * a) / rate, (frame * b) / rate, (a + b) / rate;
    assert a + b == 0 + k * rate;
    ScaleShift(frame, a + b, 0, k, rate);
    assert frame * (a + b) == frame * a + frame * b;
    assert frame * a == p * rate + x && frame * b == q * rate + y;
    Multiples(frame * k, p, q, rate);
    ResiduesAddUp(x, y, frame * k - p - q, rate);
  }

  lemma Multiples(c: int, p: int, q: int, rate: int)
    ensures (c - p - q) * rate == c * rate - p * rate - q * rate
  {
  }

  lemma ResiduesAddUp(x: nat, y: nat, m: int, rate: nat)
    requires x < rate && y < rate && x + y == m * rate
    ensures (x == 0 && y == 0) || x == rate - y
  {
    assert (m - 1) * rate == m * rate - rate;
    assert (-m) * rate == -(m * rate);
    if m >= 2 {
      AtLeastOneMultiple(m - 1, rate);
    } else if m < 0 {
      AtLeastOneMultiple(-m, rate);
    }
  }

  lemma TurnLess(tau: real, x: real, y: real, d: real)
    requires d > 0.0 && x == d - y
    ensures Share(tau, x, d) == tau - Share(tau, y, d)
  {
    var p, q := tau * x / d, tau * y / d;
    assert p * d == tau * x && q * d == tau * y;
    assert (p + q - tau) * d == 0.0;
  }

  lemma MirrorTurn(t: Waves, x: nat, y: nat, rate: nat)
    requires rate > 0 && x == rate - y
    ensures Turn(t, x, rate) == t.tau - Turn(t, y, rate)
  {
    hide Share;
    TurnLess(t.tau, x as real, y as real, rate as real);
  }

  /** The phase residues of a folded tone: the same, or mirrored. */
  lemma FoldedPhase(frame: nat, rate: nat, hz: nat)
    requires rate > 0
    ensures var x, y := (frame * FoldFrequency(hz, rate)) % rate, (frame * hz) % rate;
      if 2 * (hz % rate) <= rate then x == y else (x == 0 && y == 0) || x == rate - y
  {
    var residue := hz % rate;
    FoldedResidue(hz, rate);
    if residue <= rate - residue {
      ResidueProduct(frame, residue, hz, rate);
    } else {
      MirrorResidue(frame, rate - residue, hz, rate);
    }
  }

  /** Sampled at `rate`, a tone and its folded image have the same cosines and the same sines up to one fixed sign. */
  lemma FoldedSamples(t: Waves, frame: nat, rate: nat, hz: nat)
    requires rate > 0 && Circular(t)
    ensures t.cos(Angle(t, frame, rate, FoldFrequency(hz, rate))) == t.cos(Angle(t, frame, rate, hz))
    ensures t.sin(Angle(t, frame, rate, FoldFrequency(hz, rate)))
         == if 2 * (hz % rate) <= rate then t.sin(Angle(t, frame, rate, hz)) else -t.sin(Angle(t, frame, rate, hz))
  {
    FoldedPhase(frame, rate, hz);
    hide Turn, FoldFrequency;
    var x, y := (frame * FoldFrequency(hz, rate)) % rate, (frame * hz) % rate;
    if x == rate - y {
      MirrorTurn(t, x, y, rate);
      assert Reflects(t, Turn(t, y, rate));
    } else if x == 0 && y == 0 {
      TurnParts(t, rate);
    }
  }

  /** Reducing the phase in integers makes the oscillator exactly periodic, however large the frame index. */
  lemma PhasePreserved(t: Waves, frame: nat, turns: nat, rate: nat, hz: nat)
    requires rate > 0
    ensures Angle(t, frame + turns * rate, rate, hz) == Angle(t, frame, rate, hz)
  {
    assert (frame + turns * rate) * hz == frame * hz + (turns * hz) * rate by {
      assert (turns * rate) * hz == (turns * hz) * rate;
    }
    SameResidue((frame + turns * rate) * hz, frame * hz, rate, turns * hz);
  }
}
