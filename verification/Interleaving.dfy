/** Interleaved buffers: which sample of a signal stands where, and that fits and levels read exactly their channel. */
module Interleaving {
  import opened Arithmetic
  import opened ChannelLevel
  import opened ComponentFit
  import opened LeastSquares
  import opened Outcomes
  import opened Render
  import opened Trials
  import opened Vectors

  /** The sample of a frame and a channel stands channel places after the frame's start. */
  lemma {:induction false} InterleavedAt(f: (nat, nat) -> real, frames: nat, channels: nat, frame: nat, channel: nat)
    requires frame < frames && channel < channels
    ensures frame * channels + channel < |Interleaved(f, frames, channels)|
    ensures Interleaved(f, frames, channels)[frame * channels + channel] == f(frame, channel)
  {
    var last := frames - 1;
    AtMonotone(frame, last, channels);
    AtMonotone(last, frames, channels);
    assert At(1, channels) == channels && At(frame, channels) == frame * channels;
    if frame < last {
      AtMonotone(frame + 1, last, channels);
      AtMonotone(frame, frame + 1, channels);
      InterleavedAt(f, last, channels, frame, channel);
    }
    hide At;
    assert Interleaved(f, frames, channels) == Interleaved(f, last, channels) + Frame(f, last, channels);
  }

  /** A channel of an interleaved signal is read back frame by frame. */
  lemma SampleOfInterleaved(f: (nat, nat) -> real, frames: nat, channels: nat, frame: nat, channel: nat)
    requires frame < frames && channel < channels
    ensures var samples := Interleaved(f, frames, channels);
      InBuffer(samples, channels, channel, frame, 1) && SampleAt(samples, channels, channel, frame) == f(frame, channel)
  {
    AtWhole(frames, channels);
    InterleavedAt(f, frames, channels, frame, channel);
  }

  /** The window of a channel holds that channel's samples, from its start on. */
  lemma WindowOfInterleaved(f: (nat, nat) -> real, frames: nat, channels: nat, channel: nat, start: nat, count: nat)
    requires channel < channels && start + count <= frames
    ensures var samples := Interleaved(f, frames, channels);
      && InBuffer(samples, channels, channel, start, count)
      && ChannelWindow(samples, channels, channel, start, count)
         == seq(count, k requires 0 <= k < count => f(start + k, channel))
  {
    var samples := Interleaved(f, frames, channels);
    AtWhole(frames, channels);
    assert InBuffer(samples, channels, channel, start, count);
    hide Interleaved, SampleAt, InBuffer, At;
    var w := ChannelWindow(samples, channels, channel, start, count);
    forall k | 0 <= k < count ensures w[k] == f(start + k, channel) {
      SampleOfInterleaved(f, frames, channels, start + k, channel);
    }
  }

  /** What a fit or a level reads of one channel does not depend on the others. */
  lemma OtherChannelsIgnored(f: (nat, nat) -> real, g: (nat, nat) -> real, frames: nat, channels: nat, channel: nat,
      start: nat, count: nat)
    requires channel < channels && start + count <= frames
    requires forall frame: nat :: frame < frames ==> f(frame, channel) == g(frame, channel)
    ensures InBuffer(Interleaved(f, frames, channels), channels, channel, start, count)
    ensures InBuffer(Interleaved(g, frames, channels), channels, channel, start, count)
    ensures ChannelWindow(Interleaved(f, frames, channels), channels, channel, start, count)
      == ChannelWindow(Interleaved(g, frames, channels), channels, channel, start, count)
  {
    WindowOfInterleaved(f, frames, channels, channel, start, count);
    WindowOfInterleaved(g, frames, channels, channel, start, count);
  }

  /** The signal a buffer of whole frames holds. */
  function Signal(samples: seq<real>, channels: nat): (nat, nat) -> real {
    (frame: nat, channel: nat) =>
      if InBuffer(samples, channels, channel, frame, 1) then SampleAt(samples, channels, channel, frame) else 0.0
  }

  /** Every buffer of whole frames is its own channels, interleaved again. */
  lemma BufferRebuilt(samples: seq<real>, channels: nat)
    requires channels > 0 && |samples| % channels == 0
    ensures Interleaved(Signal(samples, channels), |samples| / channels, channels) == samples
  {
    var frames := |samples| / channels;
    var rebuilt := Interleaved(Signal(samples, channels), frames, channels);
    assert |samples| == frames * channels;
    assert |rebuilt| == At(frames, channels) == |samples|;
    forall i | 0 <= i < |samples| ensures rebuilt[i] == samples[i] {
      var frame, channel := i / channels, i % channels;
      assert i == frame * channels + channel;
      QuotientBelow(i, frames, channels);
      InterleavedAt(Signal(samples, channels), frames, channels, frame, channel);
    }
  }

  lemma QuotientBelow(i: nat, frames: nat, channels: nat)
    requires channels > 0 && i < frames * channels
    ensures i / channels < frames
  {
    if i / channels >= frames {
      ProductBound(frames, channels, i / channels, channels);
      assert false;
    }
  }

  /** The samples an adapter is given: the signal itself, or narrowed one by one for the narrower format. */
  lemma SuppliedAt(f: (nat, nat) -> real, format: SampleFormat, narrow: real -> real, frames: nat, channels: nat,
      frame: nat, channel: nat)
    requires frame < frames && channel < channels
    ensures var supplied := Supplied(Interleaved(f, frames, channels), format, narrow);
      && frame * channels + channel < |supplied|
      && supplied[frame * channels + channel]
         == if format == InterleavedF32 then narrow(f(frame, channel)) else f(frame, channel)
  {
    InterleavedAt(f, frames, channels, frame, channel);
  }

  /** The sum of squares of a channel over a window of a signal. */
  ghost function SquaresOf(f: (nat, nat) -> real, channel: nat, start: nat, n: nat): real {
    if n == 0 then 0.0
    else SquaresOf(f, channel, start, n - 1) + Mul(f(start + (n - 1), channel), f(start + (n - 1), channel))
  }

  lemma {:induction false} EnergyOfSignal(f: (nat, nat) -> real, channel: nat, start: nat, count: nat, w: seq<real>,
      n: nat)
    requires n <= count && w == seq(count, k requires 0 <= k < count => f(start + k, channel))
    ensures Energy(w, n) == SquaresOf(f, channel, start, n)
  {
    hide Mul;
    if n > 0 {
      EnergyOfSignal(f, channel, start, count, w, n - 1);
    }
  }

  lemma WholeBuffer(frames: nat, channels: nat)
    requires channels > 0
    ensures At(frames, channels) % channels == 0
  {
    DivModUnique(frames * channels, channels, frames, 0);
  }

  /** The level of a channel of an interleaved signal is made of that channel's samples alone. */
  method LevelOfSignal(f: (nat, nat) -> real, frames: nat, channels: nat, channel: nat, start: nat, count: nat)
    returns (r: Result<real, string>)
    requires channel < channels && 0 < count && start + count <= frames
    ensures r.Ok? && OverFrames(r.value, count) == SquaresOf(f, channel, start, count)
  {
    var samples := BuildInput(f, frames, channels);
    AtWhole(frames, channels);
    WholeBuffer(frames, channels);
    WindowOfInterleaved(f, frames, channels, channel, start, count);
    r := ChannelMeanSquare(samples, channels, channel, start, count);
    ghost var w := ChannelWindow(samples, channels, channel, start, count);
    EnergyOfSignal(f, channel, start, count, w, count);
  }
}
