/** Tone fitting of the resampler comparison: basis columns, compensated normal equations, residual. */
module ComponentFit {
  import opened Arithmetic
  import opened Elimination
  import opened FitAcceptance
  import opened GaussJordan
  import opened LeastSquares
  import opened Outcomes
  import opened Vectors
  import opened WindowFit

  // ---------- oscillator angles ----------

  /** The elementary functions of the platform, left uninterpreted, and the full turn. */
  datatype Waves = Waves(sin: real -> real, cos: real -> real, atan2: (real, real) -> real, tau: real)

  /** A part of a whole that measures tau. */
  function Share(tau: real, part: real, whole: real): real
    requires whole > 0.0
  {
    tau * part / whole
  }

  /** The angle of `part` rate-ths of a turn. */
  function Turn(t: Waves, part: nat, rate: nat): real
    requires rate > 0
  {
    Share(t.tau, part as real, rate as real)
  }

  /** The phase of a tone at a frame, reduced in integers before any division. */
  function Angle(t: Waves, frame: nat, rate: nat, hz: nat): real
    requires rate > 0
  {
    Turn(t, (frame * hz) % rate, rate)
  }

  /** A tone's angle at a frame is that share of its turns, less the whole turns, and within one turn. */
  lemma AngleReduced(t: Waves, frame: nat, rate: nat, hz: nat)
    requires rate > 0 && t.tau > 0.0
    ensures var turns := (frame * hz) / rate;
      Angle(t, frame, rate, hz) * rate as real == t.tau * (frame * hz - turns * rate) as real
    ensures 0.0 <= Angle(t, frame, rate, hz) < t.tau
  {
    var residue := (frame * hz) % rate;
    assert frame * hz - ((frame * hz) / rate) * rate == residue;
    ShareWithin(t.tau, residue as real, rate as real);
  }

  lemma ShareWithin(tau: real, part: real, whole: real)
    requires tau > 0.0 && 0.0 <= part < whole
    ensures Share(tau, part, whole) * whole == tau * part && 0.0 <= Share(tau, part, whole) < tau
  {
    var p := Share(tau, part, whole);
    assert p * whole == tau * part;
    ProductSigns(tau, part);
    ProductSigns(tau, whole - part);
    assert (tau - p) * whole == tau * (whole - part);
    PositiveFactor(p, whole);
    PositiveFactor(tau - p, whole);
  }

  function FoldFrequency(hz: nat, rate: nat): (folded: nat)
    requires rate > 0
    ensures 2 * folded <= rate
    ensures folded % rate == hz % rate || (folded + hz) % rate == 0
  {
    var residue := hz % rate;
    FoldedResidue(hz, rate);
    if residue <= rate - residue then residue else rate - residue
  }

  lemma FoldedResidue(hz: nat, rate: nat)
    requires rate > 0
    ensures (hz % rate) % rate == hz % rate
    ensures (rate - hz % rate + hz) % rate == 0
  {
    var q := hz / rate;
    assert hz == q * rate + hz % rate;
    DivModUnique(hz % rate, rate, 0, hz % rate);
    assert rate - hz % rate + hz == (q + 1) * rate;
    DivModUnique((q + 1) * rate, rate, q + 1, 0);
  }

  // ---------- basis columns ----------

  /** One basis function: a cosine (or constant) at hz, or a sine. */
  datatype Column = Column(hz: nat, cosine: bool)

  predicate Boundary(hz: nat, rate: nat) {
    hz == 0 || hz * 2 == rate
  }

  function BasisValue(t: Waves, column: Column, rate: nat, frame: nat): real
    requires rate > 0
  {
    if column.hz == 0 then 1.0
    else if column.hz * 2 == rate then
      if frame % 2 == 0 then 1.0 else -1.0
    else
      var phase := Angle(t, frame, rate, column.hz);
      if column.cosine then t.cos(phase) else t.sin(phase)
  }

  function BasisAt(t: Waves, columns: seq<Column>, rate: nat, frame: nat): (basis: seq<real>)
    requires rate > 0
    ensures |basis| == MAX_COLUMNS
  {
    seq(MAX_COLUMNS, i requires 0 <= i < MAX_COLUMNS =>
      if i < |columns| then BasisValue(t, columns[i], rate, frame) else 0.0)
  }

  /** The columns a component occupies: one at DC or Nyquist, a sine and cosine pair elsewhere. */
  function ComponentColumns(hz: nat, rate: nat): seq<Column> {
    if Boundary(hz, rate) then [Column(hz, true)] else [Column(hz, false), Column(hz, true)]
  }

  /** The component for hz starts at column part.0 and is one column wide when part.1 holds, two otherwise. */
  predicate Placed(columns: seq<Column>, part: (nat, bool), hz: nat, rate: nat) {
    var wanted := ComponentColumns(hz, rate);
    && part.1 == Boundary(hz, rate)
    && part.0 + |wanted| <= |columns|
    && forall j :: 0 <= j < |wanted| ==> columns[part.0 + j] == wanted[j]
  }

  /** Columns taken by the first n requested components. */
  function ColumnsBefore(frequencies: seq<nat>, rate: nat, n: nat): nat
    requires n <= |frequencies|
  {
    if n == 0 then 0 else ColumnsBefore(frequencies, rate, n - 1) + |ComponentColumns(frequencies[n - 1], rate)|
  }

  /** The columns of the first n requested components. */
  function LaidColumns(frequencies: seq<nat>, rate: nat, n: nat): (columns: seq<Column>)
    requires n <= |frequencies|
    ensures n <= |columns| <= 2 * n
  {
    if n == 0 then [] else LaidColumns(frequencies, rate, n - 1) + ComponentColumns(frequencies[n - 1], rate)
  }

  /** All columns of a fit. */
  function FitColumns(frequencies: seq<nat>, rate: nat): (columns: seq<Column>)
    ensures |columns| <= 2 * |frequencies| + 1
  {
    LaidColumns(frequencies, rate, |frequencies|) + if 0 in frequencies then [] else [Column(0, true)]
  }

  /** The requested components side by side in order, then DC unless it was requested. */
  ghost predicate Planned(columns: seq<Column>, components: seq<(nat, bool)>, frequencies: seq<nat>, rate: nat) {
    && |components| == |frequencies|
    && (forall i :: 0 <= i < |frequencies| ==> Placed(columns, components[i], frequencies[i], rate))
    && (forall i :: 0 <= i < |frequencies| ==> components[i].0 == ColumnsBefore(frequencies, rate, i))
    && |columns| == ColumnsBefore(frequencies, rate, |frequencies|) + (if 0 in frequencies then 0 else 1)
    && (0 in frequencies || columns[|columns| - 1] == Column(0, true))
  }

  /** Appends the columns of one component. */
  method PlanComponent(hz: nat, rate: nat, columns: seq<Column>) returns (extended: seq<Column>, part: (nat, bool))
    ensures extended == columns + ComponentColumns(hz, rate)
    ensures part == (|columns|, Boundary(hz, rate))
  {
    var first := |columns|;
    var boundary := Boundary(hz, rate);
    if boundary {
      extended := columns + [Column(hz, true)];
    } else {
      extended := columns + [Column(hz, false)];
      extended := extended + [Column(hz, true)];
    }
    part := (first, boundary);
  }

  lemma PlacedAtEnd(columns: seq<Column>, hz: nat, rate: nat)
    ensures Placed(columns + ComponentColumns(hz, rate), (|columns|, Boundary(hz, rate)), hz, rate)
  {
  }

  lemma PlacedStays(columns: seq<Column>, more: seq<Column>, part: (nat, bool), hz: nat, rate: nat)
    requires Placed(columns, part, hz, rate)
    ensures Placed(columns + more, part, hz, rate)
  {
  }

  /** The first n components stand where they should. */
  ghost predicate PlacedSoFar(columns: seq<Column>, components: seq<(nat, bool)>, frequencies: seq<nat>, rate: nat,
      n: nat) {
    && n <= |frequencies| && n <= |components|
    && (forall i :: 0 <= i < n ==> components[i].0 == ColumnsBefore(frequencies, rate, i))
    && forall i :: 0 <= i < n ==> Placed(columns, components[i], frequencies[i], rate)
  }

  lemma AllStay(columns: seq<Column>, more: seq<Column>, components: seq<(nat, bool)>, frequencies: seq<nat>,
      rate: nat, n: nat)
    requires PlacedSoFar(columns, components, frequencies, rate, n)
    ensures PlacedSoFar(columns + more, components, frequencies, rate, n)
  {
    hide Placed;
    forall i | 0 <= i < n ensures Placed(columns + more, components[i], frequencies[i], rate) {
      PlacedStays(columns, more, components[i], frequencies[i], rate);
    }
  }

  lemma NothingPlaced(frequencies: seq<nat>, rate: nat)
    ensures ColumnsBefore(frequencies, rate, 0) == 0 && PlacedSoFar([], [], frequencies, rate, 0)
  {
  }

  lemma PlacedOneMore(columns: seq<Column>, components: seq<(nat, bool)>, frequencies: seq<nat>, rate: nat, n: nat)
    requires n < |frequencies| && |components| == n && |columns| == ColumnsBefore(frequencies, rate, n)
    requires PlacedSoFar(columns, components, frequencies, rate, n)
    ensures var wanted := ComponentColumns(frequencies[n], rate);
      && |columns + wanted| == ColumnsBefore(frequencies, rate, n + 1)
      && PlacedSoFar(columns + wanted, components + [(|columns|, Boundary(frequencies[n], rate))], frequencies, rate,
        n + 1)
  {
    hide Placed, ComponentColumns;
    PlacedAtEnd(columns, frequencies[n], rate);
    AllStay(columns, ComponentColumns(frequencies[n], rate), components, frequencies, rate, n);
  }

  /** Lays the requested components side by side. */
  method PlanRequested(frequencies: seq<nat>, rate: nat) returns (columns: seq<Column>, components: seq<(nat, bool)>)
    ensures columns == LaidColumns(frequencies, rate, |frequencies|)
    ensures |columns| == ColumnsBefore(frequencies, rate, |frequencies|) && |components| == |frequencies|
    ensures PlacedSoFar(columns, components, frequencies, rate, |frequencies|)
  {
    hide PlacedSoFar, ComponentColumns, ColumnsBefore;
    columns, components := [], [];
    NothingPlaced(frequencies, rate);
    for n := 0 to |frequencies|
      invariant |columns| == ColumnsBefore(frequencies, rate, n) && |components| == n
      invariant columns == LaidColumns(frequencies, rate, n)
      invariant PlacedSoFar(columns, components, frequencies, rate, n)
    {
      PlacedOneMore(columns, components, frequencies, rate, n);
      var part;
      columns, part := PlanComponent(frequencies[n], rate, columns);
      components := components + [part];
    }
  }

  /** The requested components, and DC unless it was requested. */
  method PlanColumns(frequencies: seq<nat>, rate: nat) returns (columns: seq<Column>, components: seq<(nat, bool)>)
    requires |frequencies| <= 2
    ensures |columns| <= MAX_COLUMNS
    ensures Planned(columns, components, frequencies, rate)
    ensures columns == FitColumns(frequencies, rate)
  {
    hide Placed, ColumnsBefore;
    columns, components := PlanRequested(frequencies, rate);
    if 0 !in frequencies {
      AllStay(columns, [Column(0, true)], components, frequencies, rate, |frequencies|);
      columns := columns + [Column(0, true)];
    }
  }

  // ---------- the fit ----------

  datatype Component = Component(amplitudeSquared: real, phaseRadians: Option<real>, rmsSquared: real)

  datatype Fit = Fit(components: seq<Component>, residualMeanSquare: real, frames: nat)

  predicate BadGeometry(samples: seq<real>, channels: nat, channel: nat, rate: nat, frequencies: seq<nat>) {
    || channels == 0
    || channel >= channels
    || |samples| % channels != 0
    || rate == 0
    || frequencies == []
    || |frequencies| > 2
    || (exists i :: 0 <= i < |frequencies| && frequencies[i] * 2 > rate)
    || (|frequencies| == 2 && frequencies[0] == frequencies[1])
  }

  /** How many frames the window can hold. */
  function WindowFrames(samples: seq<real>, channels: nat, start: nat, count: nat): nat
    requires channels > 0
  {
    var frames := |samples| / channels;
    var available := if start <= frames then frames - start else 0;
    if count <= available then count else available
  }

  /** The window takes as many frames as were asked for and the buffer still holds. */
  lemma WindowFramesLargest(samples: seq<real>, channels: nat, start: nat, count: nat, n: nat)
    requires channels > 0
    ensures n <= WindowFrames(samples, channels, start, count)
      <==> n <= count && (n == 0 || start + n <= |samples| / channels)
  {
  }

  lemma FrameInRange(length: nat, channels: nat, channel: nat, frame: nat)
    requires channel < channels && frame < length / channels
    ensures frame * channels + channel < length
  {
    var frames := length / channels;
    assert frames * channels <= length;
    assert frames * channels == frame * channels + (frames - frame) * channels;
    AtLeastOneMultiple(frames - frame, channels);
  }

  /** The window lies inside the interleaved buffer. */
  predicate InBuffer(samples: seq<real>, channels: nat, channel: nat, start: nat, count: nat) {
    channel < channels && start + count <= |samples| / channels
  }

  /** One sample of one channel of an interleaved buffer. */
  function SampleAt(samples: seq<real>, channels: nat, channel: nat, frame: nat): real
    requires InBuffer(samples, channels, channel, frame, 1)
  {
    FrameInRange(|samples|, channels, channel, frame);
    samples[frame * channels + channel]
  }

  function Describe(t: Waves, coeffs: seq<real>, first: nat, boundary: bool): Component
    requires first + (if boundary then 1 else 2) <= |coeffs|
  {
    if boundary then
      var a := Mul(coeffs[first], coeffs[first]);
      Component(a, None, a)
    else
      var a := Mul(coeffs[first], coeffs[first]) + Mul(coeffs[first + 1], coeffs[first + 1]);
      Component(a, Some(t.atan2(coeffs[first + 1], coeffs[first])), a / 2.0)
  }

  /** How a fit was obtained: the columns, where each component sits, the coefficients, and the window's rows
    * and samples.
    */
  datatype Explanation = Explanation(columns: seq<Column>, components: seq<(nat, bool)>, coeffs: seq<real>,
                                     design: seq<seq<real>>, window: seq<real>)

  /** The explanation belongs to this window of this signal. */
  ghost predicate Explains(e: Explanation, t: Waves, samples: seq<real>, channels: nat, channel: nat, rate: nat,
      frequencies: seq<nat>, start: nat)
    requires rate > 0 && InBuffer(samples, channels, channel, start, |e.window|)
  {
    && |e.columns| == |e.coeffs| <= MAX_COLUMNS
    && Planned(e.columns, e.components, frequencies, rate)
    && Design(e.design, e.window, MAX_COLUMNS)
    && (forall k :: 0 <= k < |e.window| ==> e.design[k] == BasisAt(t, e.columns, rate, start + k))
    && (forall k :: 0 <= k < |e.window| ==> e.window[k] == SampleAt(samples, channels, channel, start + k))
  }

  /** The published figures are those of the coefficients. */
  ghost predicate Published(e: Explanation, t: Waves, fit: Fit)
    requires forall i :: 0 <= i < |e.components| ==>
      e.components[i].0 + (if e.components[i].1 then 1 else 2) <= |e.coeffs|
  {
    && fit.frames == |e.window|
    && |fit.components| == |e.components|
    && forall i :: 0 <= i < |e.components| ==>
         fit.components[i] == Describe(t, e.coeffs, e.components[i].0, e.components[i].1)
  }

  lemma FramesInside(samples: seq<real>, channels: nat, channel: nat, start: nat, count: nat)
    requires InBuffer(samples, channels, channel, start, count)
    ensures forall frame: nat :: start <= frame < start + count ==> InBuffer(samples, channels, channel, frame, 1)
  {
  }

  /** The rows and samples of a window, as values. */
  lemma PresentWindow(basisAt: nat -> seq<real>, sampleAt: nat --> real, start: nat, count: nat)
    returns (design: seq<seq<real>>, window: seq<real>)
    requires Covers(basisAt, sampleAt, start, count)
    ensures |window| == count && Presents(basisAt, sampleAt, start, design, window)
  {
    design := seq(count, k requires 0 <= k < count => basisAt(start + k));
    window := seq(count, k requires 0 <= k < count => sampleAt(start + k));
  }

  /** The rows that a window presents to a fit of these columns. */
  ghost function WindowDesign(t: Waves, columns: seq<Column>, rate: nat, start: nat, frames: nat): (d: seq<seq<real>>)
    requires rate > 0
    ensures |d| == frames && forall k :: 0 <= k < frames ==> d[k] == BasisAt(t, columns, rate, start + k)
    ensures forall k :: 0 <= k < frames ==> |d[k]| == MAX_COLUMNS
  {
    seq(frames, k requires 0 <= k < frames => BasisAt(t, columns, rate, start + k))
  }

  /** The elimination of the window's normal equations finds all its pivots; the samples have no say in it. */
  ghost predicate Fittable(t: Waves, columns: seq<Column>, rate: nat, start: nat, frames: nat)
    requires rate > 0 && |columns| <= MAX_COLUMNS
  {
    Accepts(NormalMatrix(WindowDesign(t, columns, rate, start, frames), |columns|, frames), 0, FitRule(Floor(frames)),
      |columns|)
  }

  /** Some combination of the columns is nearly silent over the window. */
  ghost predicate Dependent(t: Waves, columns: seq<Column>, rate: nat, start: nat, frames: nat)
    requires rate > 0 && |columns| <= MAX_COLUMNS
  {
    exists x :: NearlySilent(WindowDesign(t, columns, rate, start, frames), x, Floor(frames), |columns|)
  }

  /** Fits planned columns to a window that lies inside the buffer. */
  method FitPlanned(t: Waves, samples: seq<real>, channels: nat, channel: nat, rate: nat, start: nat, frames: nat,
      columns: seq<Column>)
    returns (answer: Result<seq<real>, string>, energy: real, ghost design: seq<seq<real>>, ghost window: seq<real>)
    requires rate > 0 && InBuffer(samples, channels, channel, start, frames) && |columns| <= MAX_COLUMNS
    ensures |window| == frames && Design(design, window, MAX_COLUMNS)
    ensures forall k :: 0 <= k < frames ==> design[k] == BasisAt(t, columns, rate, start + k)
    ensures forall k :: 0 <= k < frames ==> window[k] == SampleAt(samples, channels, channel, start + k)
    ensures answer.Ok? <==> Fittable(t, columns, rate, start, frames)
    ensures answer.Err? ==> Dependent(t, columns, rate, start, frames)
    ensures answer.Ok? ==> |answer.value| == MAX_COLUMNS && BestFit(design, window, answer.value[..|columns|], energy)
  {
    FramesInside(samples, channels, channel, start, frames);
    hide Mul, BasisAt, BasisValue, SampleAt, Angle, InBuffer;
    var basisAt := (frame: nat) => BasisAt(t, columns, rate, frame);
    var sampleAt := (frame: nat) requires InBuffer(samples, channels, channel, frame, 1) =>
      SampleAt(samples, channels, channel, frame);
    design, window := PresentWindow(basisAt, sampleAt, start, frames);
    assert design == WindowDesign(t, columns, rate, start, frames);
    hide Accepts, NearlySilent;
    answer, energy := FitWindow(basisAt, sampleAt, start, frames, |columns|, design, window);
  }

  method FitComponents(t: Waves, samples: seq<real>, channels: nat, channel: nat, rate: nat, frequencies: seq<nat>,
      start: nat, count: nat)
    returns (r: Result<Fit, string>, ghost e: Explanation)
    ensures BadGeometry(samples, channels, channel, rate, frequencies) ==> r.Err?
    ensures !BadGeometry(samples, channels, channel, rate, frequencies) ==>
      var columns, frames := FitColumns(frequencies, rate), WindowFrames(samples, channels, start, count);
      && (r.Ok? <==> frames >= 32 && Fittable(t, columns, rate, start, frames))
      && (r.Err? && frames >= MINIMUM_FRAMES ==> Dependent(t, columns, rate, start, frames))
    ensures r.Ok? ==>
      && !BadGeometry(samples, channels, channel, rate, frequencies)
      && r.value.frames == WindowFrames(samples, channels, start, count) == |e.window| >= MINIMUM_FRAMES
      && InBuffer(samples, channels, channel, start, |e.window|)
      && Explains(e, t, samples, channels, channel, rate, frequencies, start)
      && BestFit(e.design, e.window, e.coeffs, MeanTimes(r.value))
      && Published(e, t, r.value)
  {
    e := Explanation([], [], [], [], []);
    if channels == 0 || channel >= channels || |samples| % channels != 0 || rate == 0 || frequencies == []
      || |frequencies| > 2 || (exists i :: 0 <= i < |frequencies| && frequencies[i] * 2 > rate)
      || (|frequencies| == 2 && frequencies[0] == frequencies[1]) {
      return Err("invalid geometry/frequencies for component fit"), e;
    }
    var total := |samples| / channels;
    var available := if start <= total then total - start else 0;
    var frames := if count <= available then count else available;
    if frames < MINIMUM_FRAMES {
      return Err("not enough samples for component fit"), e;
    }
    assert InBuffer(samples, channels, channel, start, frames);
    assert |frequencies| <= 2 && rate > 0;
    hide BadGeometry, WindowFrames, InBuffer, Explains, BestFit, Published, Fittable, Dependent, FitColumns;
    r, e := FitFrames(t, samples, channels, channel, rate, frequencies, start, frames);
  }

  /** The fit of a window that is long enough and lies inside the buffer. */
  method FitFrames(t: Waves, samples: seq<real>, channels: nat, channel: nat, rate: nat, frequencies: seq<nat>,
      start: nat, frames: nat)
    returns (r: Result<Fit, string>, ghost e: Explanation)
    requires rate > 0 && |frequencies| <= 2 && frames > 0 && InBuffer(samples, channels, channel, start, frames)
    ensures r.Ok? <==> Fittable(t, FitColumns(frequencies, rate), rate, start, frames)
    ensures r.Err? ==> Dependent(t, FitColumns(frequencies, rate), rate, start, frames)
    ensures r.Ok? ==>
      && r.value.frames == |e.window| == frames
      && Explains(e, t, samples, channels, channel, rate, frequencies, start)
      && BestFit(e.design, e.window, e.coeffs, MeanTimes(r.value))
      && Published(e, t, r.value)
  {
    hide Mul, BasisAt, BasisValue, SampleAt, Angle, Describe, InBuffer, BestFit, MeanTimes, Fittable, Dependent,
      FitColumns;
    e := Explanation([], [], [], [], []);
    var columns, components := PlanColumns(frequencies, rate);
    var answer, energy;
    ghost var design, window;
    answer, energy, design, window := FitPlanned(t, samples, channels, channel, rate, start, frames, columns);
    if answer.Err? {
      return Err(answer.error), e;
    }
    e := Explanation(columns, components, answer.value[..|columns|], design, window);
    var mean := MeanOf(energy, frames);
    r := Ok(Fit(DescribeAll(t, answer.value[..|columns|], components), mean, frames));
    MeanBack(energy, r.value);
  }

  function MeanOf(energy: real, frames: nat): real
    requires frames > 0
  {
    energy / frames as real
  }

  /** The residual energy behind the published mean square. */
  ghost function MeanTimes(fit: Fit): real {
    fit.frames as real * fit.residualMeanSquare
  }

  lemma MeanBack(energy: real, fit: Fit)
    requires fit.frames > 0 && fit.residualMeanSquare == MeanOf(energy, fit.frames)
    ensures MeanTimes(fit) == energy
  {
  }

  function DescribeAll(t: Waves, coeffs: seq<real>, components: seq<(nat, bool)>): (r: seq<Component>)
    requires forall i :: 0 <= i < |components| ==> components[i].0 + (if components[i].1 then 1 else 2) <= |coeffs|
    ensures |r| == |components|
    ensures forall i :: 0 <= i < |r| ==> r[i] == Describe(t, coeffs, components[i].0, components[i].1)
  {
    seq(|components|, i requires 0 <= i < |components| => Describe(t, coeffs, components[i].0, components[i].1))
  }

}
