/** The mean square of one channel over a window, and how a fit of the same window splits it. */
module ChannelLevel {
  import opened ComponentFit
  import opened LeastSquares
  import opened Outcomes
  import opened Vectors
  import opened WindowFit

  predicate LevelGeometry(samples: seq<real>, channels: nat, channel: nat, start: nat, count: nat) {
    channels != 0 && channel < channels && |samples| % channels == 0 && count != 0
      && start + count <= |samples| / channels
  }

  /** The sum that a mean over n frames stands for. */
  function OverFrames(mean: real, n: nat): real {
    mean * n as real
  }

  /** The samples of one channel over a window. */
  ghost function ChannelWindow(samples: seq<real>, channels: nat, channel: nat, start: nat, count: nat): (w: seq<real>)
    requires InBuffer(samples, channels, channel, start, count)
    ensures |w| == count && forall k :: 0 <= k < count ==> w[k] == SampleAt(samples, channels, channel, start + k)
  {
    seq(count, k requires 0 <= k < count => SampleAt(samples, channels, channel, start + k))
  }

  /** The square of what the source returns, which takes the root last. */
  method ChannelMeanSquare(samples: seq<real>, channels: nat, channel: nat, start: nat, count: nat)
    returns (r: Result<real, string>)
    ensures r.Ok? <==> LevelGeometry(samples, channels, channel, start, count)
    ensures r.Ok? ==>
      OverFrames(r.value, count) == Energy(ChannelWindow(samples, channels, channel, start, count), count)
  {
    if channels == 0 || channel >= channels || |samples| % channels != 0 || count == 0
      || start + count > |samples| / channels {
      return Err("invalid RMS geometry");
    }
    var energy := WindowEnergy(samples, channels, channel, start, count);
    MeanTimesCount(energy, count);
    return Ok(energy / count as real);
  }

  method WindowEnergy(samples: seq<real>, channels: nat, channel: nat, start: nat, count: nat) returns (energy: real)
    requires InBuffer(samples, channels, channel, start, count)
    ensures energy == Energy(ChannelWindow(samples, channels, channel, start, count), count)
  {
    hide SampleAt, Mul;
    var sum := EMPTY_SUM;
    for k := 0 to count
      invariant sum == Sum(Energy(ChannelWindow(samples, channels, channel, start, count), k), 0.0)
    {
      var value := SampleAt(samples, channels, channel, start + k);
      sum := sum.Add(Mul(value, value));
    }
    energy := sum.value;
  }

  lemma MeanTimesCount(energy: real, count: nat)
    requires count > 0
    ensures OverFrames(energy / count as real, count) == energy
  {
  }

  /** A fit splits its channel's mean square into a fitted share and the published residual, so the residual
    * never exceeds the level.
    */
  lemma FitSplitsLevel(t: Waves, samples: seq<real>, channels: nat, channel: nat, rate: nat, frequencies: seq<nat>,
      start: nat, e: Explanation, fit: Fit, level: real)
    requires rate > 0 && fit.frames == |e.window| > 0 && InBuffer(samples, channels, channel, start, |e.window|)
    requires Explains(e, t, samples, channels, channel, rate, frequencies, start)
    requires BestFit(e.design, e.window, e.coeffs, MeanTimes(fit))
    requires OverFrames(level, fit.frames)
      == Energy(ChannelWindow(samples, channels, channel, start, fit.frames), fit.frames)
    ensures OverFrames(level - fit.residualMeanSquare, fit.frames)
      == FittedEnergy(e.design, e.coeffs, |e.coeffs|, |e.design|)
    ensures 0.0 <= fit.residualMeanSquare <= level
  {
    ExplainedWindow(t, samples, channels, channel, rate, frequencies, start, e);
    hide Explains, InBuffer, SampleAt, ChannelWindow, Energy, Orthogonal, StrictlyBest, FittedEnergy, SquaredError,
      Mul, OverFrames, MeanTimes;
    var fitted := FittedEnergy(e.design, e.coeffs, |e.coeffs|, |e.design|);
    FittedEnergyNonNegative(e.design, e.coeffs, |e.coeffs|, |e.design|);
    SquaredErrorNonNegative(e.design, e.window, e.coeffs, |e.coeffs|, |e.design|);
    SplitMean(level, fit, fitted);
  }

  lemma ExplainedWindow(t: Waves, samples: seq<real>, channels: nat, channel: nat, rate: nat, frequencies: seq<nat>,
      start: nat, e: Explanation)
    requires rate > 0 && InBuffer(samples, channels, channel, start, |e.window|)
    requires Explains(e, t, samples, channels, channel, rate, frequencies, start)
    ensures e.window == ChannelWindow(samples, channels, channel, start, |e.window|)
    ensures |e.coeffs| <= MAX_COLUMNS && Design(e.design, e.window, MAX_COLUMNS)
  {
    hide SampleAt;
  }

  lemma SplitMean(level: real, fit: Fit, fitted: real)
    requires fit.frames > 0 && OverFrames(level, fit.frames) == fitted + MeanTimes(fit) && fitted >= 0.0
      && MeanTimes(fit) >= 0.0
    ensures OverFrames(level - fit.residualMeanSquare, fit.frames) == fitted && 0.0 <= fit.residualMeanSquare <= level
  {
    var n, residual := fit.frames as real, fit.residualMeanSquare;
    assert (level - residual) * n == fitted;
    assert level - residual == fitted / n;
    assert residual == (n * residual) / n;
  }
}
