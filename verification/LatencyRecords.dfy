/** Measuring process-call latency on any adapter, and the check that recomputes what the record claims. */
module LatencyRecords {
  import opened Outcomes
  import opened Latency
  import opened OrderStatistics
  import opened Trials
  import opened Render
  import opened Vectors

  datatype MeasureError =
    | NotCreated(message: string)
    | CapacityTooSmall
    | AdapterFailed(message: string)
    | InvalidWarmup
    | InvalidProgress(call: nat)
    | NotSummarized(error: LatencyError)

  datatype CallLatency = CallLatency(
    identity: MeasurementIdentity, processCallNs: TailDistribution,
    consumedFramesPerCall: seq<nat>, producedFramesPerCall: seq<nat>,
    warmupConsumedFrames: nat, warmupOutputFrames: nat, drainFrames: nat, drainTerminal: bool,
    expectedCompleteOutputFrames: nat, actualCompleteOutputFrames: nat,
    p99UtilizationPct: Quotient, callsAboveBufferDuration: nat, valid: bool)

  // ---------- the calls an adapter gets ----------

  function Sum(counts: seq<nat>): nat {
    if counts == [] then 0 else Sum(counts[..|counts| - 1]) + counts[|counts| - 1]
  }

  /** Only the last timed call marks the end of the input. */
  predicate MarksEnd(call: nat, iterations: nat) {
    call >= WARMUP_BUFFERS && call + 1 == WARMUP_BUFFERS + iterations
  }

  ghost function StateAt<S>(a: Adapter<S>, input: seq<real>, iterations: nat, call: nat): S {
    if call == 0 then a.initial
    else a.step(StateAt(a, input, iterations, call - 1), Process(input, MarksEnd(call - 1, iterations))).state
  }

  ghost function Reply<S>(a: Adapter<S>, input: seq<real>, iterations: nat, call: nat):
    Result<AdapterProgress, string>
  {
    a.step(StateAt(a, input, iterations, call), Process(input, MarksEnd(call, iterations))).progress
  }

  predicate WholeChunk(reply: Result<AdapterProgress, string>, chunk: nat) {
    reply.Ok? && reply.value.consumedFrames == chunk && !reply.value.finished
  }

  /** Frames produced by calls from up to but not including until. */
  ghost function Produced<S>(a: Adapter<S>, input: seq<real>, iterations: nat, from: nat, until: nat): seq<nat>
    requires from <= until
    decreases until
  {
    if from == until then []
    else
      var reply := Reply(a, input, iterations, until - 1);
      Produced(a, input, iterations, from, until - 1) + [if reply.Ok? then reply.value.producedFrames else 0]
  }

  /** Every one of the first n calls takes the whole chunk and does not finish. */
  ghost predicate Steady<S>(a: Adapter<S>, input: seq<real>, iterations: nat, chunk: nat, n: nat) {
    forall call: nat :: call < n ==> WholeChunk(Reply(a, input, iterations, call), chunk)
  }

  function SaturatingAdd(a: nat, b: nat): nat {
    if a + b <= USIZE_MAX then a + b else USIZE_MAX
  }

  /** Draining from a state: the frames so far and whether the adapter finished within the calls allowed. */
  ghost function Drained<S>(a: Adapter<S>, state: S, frames: nat, calls: nat): Result<(nat, bool), string>
    decreases calls
  {
    if calls == 0 then Ok((frames, false))
    else
      var answer := a.step(state, Drain);
      if answer.progress.Err? then Err(answer.progress.error)
      else
        var total := SaturatingAdd(frames, answer.progress.value.producedFrames);
        if answer.progress.value.finished then Ok((total, true)) else Drained(a, answer.state, total, calls - 1)
  }

  method DrainAdapter<S>(a: Adapter<S>, initial: S) returns (r: Result<(nat, bool), string>)
    ensures r == Drained(a, initial, 0, MAX_DRAIN_CALLS)
  {
    var frames := 0;
    var state := initial;
    for call := 0 to MAX_DRAIN_CALLS
      invariant Drained(a, initial, 0, MAX_DRAIN_CALLS) == Drained(a, state, frames, MAX_DRAIN_CALLS - call)
    {
      var answer := a.step(state, Drain);
      if answer.progress.Err? {
        return Err(answer.progress.error);
      }
      state := answer.state;
      frames := SaturatingAdd(frames, answer.progress.value.producedFrames);
      if answer.progress.value.finished {
        return Ok((frames, true));
      }
    }
    return Ok((frames, false));
  }

  ghost function AfterDrains<S>(a: Adapter<S>, state: S, n: nat): S {
    if n == 0 then state else AfterDrains(a, a.step(state, Drain).state, n - 1)
  }

  /** The frames that n drains in a row produce. */
  ghost function DrainOutput<S>(a: Adapter<S>, state: S, n: nat): nat {
    if n == 0 then 0
    else
      var answer := a.step(state, Drain);
      (if answer.progress.Ok? then answer.progress.value.producedFrames else 0) + DrainOutput(a, answer.state, n - 1)
  }

  /** Drain k answered without error and said whether it was the last. */
  ghost predicate Continues<S>(a: Adapter<S>, state: S, k: nat, finished: bool) {
    var progress := a.step(AfterDrains(a, state, k), Drain).progress;
    progress.Ok? && progress.value.finished == finished
  }

  /** The frames drained are all that n drains produced, as far as a machine word holds them; the last of them finished,
    * or none did and no call was left.
    */
  lemma {:induction false} DrainedExact<S>(a: Adapter<S>, state: S, frames: Usize, calls: nat) returns (n: nat)
    requires Drained(a, state, frames, calls).Ok?
    ensures n <= calls
    ensures var total, (drained, terminal) := frames + DrainOutput(a, state, n), Drained(a, state, frames, calls).value;
      && drained == (if total <= USIZE_MAX then total else USIZE_MAX)
      && (if terminal then n > 0 && Continues(a, state, n - 1, true) else n == calls)
      && forall k: nat :: k < (if terminal then n - 1 else n) ==> Continues(a, state, k, false)
    decreases calls
  {
    if calls == 0 {
      n := 0;
    } else {
      var answer := a.step(state, Drain);
      var total := SaturatingAdd(frames, answer.progress.value.producedFrames);
      if answer.progress.value.finished {
        n := 1;
        assert AfterDrains(a, state, 0) == state;
        assert DrainOutput(a, answer.state, 0) == 0;
      } else {
        var m := DrainedExact(a, answer.state, total, calls - 1);
        n := m + 1;
        var terminal := Drained(a, state, frames, calls).value.1;
        assert Continues(a, state, 0, false);
        forall k: nat | k <= m ensures Continues(a, state, k + 1, terminal) == Continues(a, answer.state, k, terminal) {
        }
        forall k: nat | k < (if terminal then n - 1 else n) ensures Continues(a, state, k, false) {
          if k > 0 {
            assert Continues(a, answer.state, k - 1, false);
          }
        }
      }
    }
  }

  // ---------- measuring ----------

  function Repeated(count: nat, n: nat): seq<nat> {
    seq(n, _ => count)
  }

  function Frames(chunk: nat, calls: nat): nat {
    calls * chunk
  }

  /** A quotient of non-negative numbers as the machine's division leaves it. */
  datatype Quotient = Finite(value: real) | Infinite | NotANumber

  function Divide(a: real, b: Quotient): Quotient {
    if b.NotANumber? then NotANumber
    else if b.Infinite? then Finite(0.0)
    else if b.value != 0.0 then Finite(a / b.value)
    else if a == 0.0 then NotANumber
    else Infinite
  }

  function Percent(q: Quotient): Quotient {
    if q.Finite? then Finite(q.value * 100.0) else q
  }

  /** Equality as the machine sees it: nothing equals what is not a number. */
  predicate SameQuotient(a: Quotient, b: Quotient) {
    a == b && a != NotANumber
  }

  /** How long the source buffer lasts; without a rate the division does not fail. */
  function SourceNs(chunk: nat, fromHz: nat): Quotient {
    if fromHz > 0 then Finite(BufferDuration(chunk, fromHz)) else if chunk > 0 then Infinite else NotANumber
  }

  predicate Exceeds(v: real, limit: Quotient) {
    limit.Finite? && v > limit.value
  }

  /** How many samples exceed a limit. */
  function Above(samples: seq<real>, limit: Quotient): nat {
    if samples == [] then 0
    else Above(samples[..|samples| - 1], limit) + if Exceeds(samples[|samples| - 1], limit) then 1 else 0
  }

  /** A duration either exceeds a limit or is at most the limit. */
  lemma {:induction false} AboveCounts(samples: seq<real>, limit: real)
    ensures Above(samples, Finite(limit)) + AtMost(samples, limit) == |samples|
  {
    if samples != [] {
      AboveCounts(samples[..|samples| - 1], limit);
    }
  }

  /** Nothing exceeds a duration without end, or one that is not a number. */
  lemma {:induction false} NothingAbove(samples: seq<real>)
    ensures Above(samples, Infinite) == 0 && Above(samples, NotANumber) == 0
  {
    if samples != [] {
      NothingAbove(samples[..|samples| - 1]);
    }
  }

  /** A finite share times its whole is a hundred times the part, and the whole is the chunk's nanoseconds at
    * the rate.
    */
  lemma ShareExact(p99: real, chunk: nat, fromHz: nat)
    requires chunk > 0 && fromHz > 0
    ensures var whole, share := SourceNs(chunk, fromHz), Percent(Divide(p99, SourceNs(chunk, fromHz)));
      && whole.Finite? && share.Finite? && whole.value > 0.0
      && Mul(whole.value, fromHz as real) == chunk as real * 1000000000.0
      && Mul(share.value, whole.value) == p99 * 100.0
  {
    DurationTimesRate(chunk, fromHz);
    hide BufferDuration;
    var d := BufferDuration(chunk, fromHz);
    var q := p99 / d;
    assert q * d == p99;
  }

  /** Without a duration the share is no number, nothing or without end. */
  lemma ShareWithoutDuration(p99: real, chunk: nat, fromHz: nat)
    requires p99 >= 0.0 && (chunk == 0 || fromHz == 0)
    ensures var share := Percent(Divide(p99, SourceNs(chunk, fromHz)));
      if chunk == 0 && (fromHz == 0 || p99 == 0.0) then share == NotANumber
      else if fromHz == 0 then share == Finite(0.0) else share == Infinite
  {
    if fromHz > 0 {
      DurationTimesRate(chunk, fromHz);
      ZeroProduct(BufferDuration(chunk, fromHz), fromHz as real);
    }
  }

  lemma CheckedTotalExact(a: nat, b: nat, c: nat)
    ensures CheckedTotal(a, b, c) == if a + b + c <= USIZE_MAX then Some(a + b + c) else None
  {
  }

  /** The durations of the timed calls, as the clock reads them. */
  function Durations(clock: nat -> nat, n: nat): seq<real> {
    seq(n, call requires 0 <= call < n => clock(call) as real)
  }

  /** The per-call counters are those of the calls that were made, and every call took its whole chunk. */
  ghost predicate CountsCalls<S>(m: CallLatency, a: Adapter<S>, input: seq<real>, iterations: nat, chunk: nat) {
    var last := WARMUP_BUFFERS + iterations;
    && Steady(a, input, iterations, chunk, last)
    && m.consumedFramesPerCall == Repeated(chunk, iterations)
    && m.producedFramesPerCall == Produced(a, input, iterations, WARMUP_BUFFERS, last)
    && m.warmupConsumedFrames == Frames(chunk, WARMUP_BUFFERS)
    && m.warmupOutputFrames == Sum(Produced(a, input, iterations, 0, WARMUP_BUFFERS))
    && Drained(a, StateAt(a, input, iterations, last), 0, MAX_DRAIN_CALLS) == Ok((m.drainFrames, m.drainTerminal))
  }

  /** No frame is lost: the totals are those of all calls, and the expectation is asked for all frames fed. */
  ghost predicate Balances<S>(m: CallLatency, a: Adapter<S>, iterations: nat, chunk: nat) {
    && m.expectedCompleteOutputFrames == a.expectedFrames(Frames(chunk, WARMUP_BUFFERS + iterations))
    && m.actualCompleteOutputFrames == m.warmupOutputFrames + Sum(m.producedFramesPerCall) + m.drainFrames
    && m.valid == (m.drainTerminal && m.expectedCompleteOutputFrames == m.actualCompleteOutputFrames)
  }

  method Warmup<S>(a: Adapter<S>, input: seq<real>, chunk: nat, ghost iterations: nat)
    returns (r: Result<(S, nat, nat), MeasureError>)
    ensures r.Ok? <==> Steady(a, input, iterations, chunk, WARMUP_BUFFERS)
    ensures r.Ok? ==> r.value.0 == StateAt(a, input, iterations, WARMUP_BUFFERS)
    ensures r.Ok? ==> r.value.1 == Frames(chunk, WARMUP_BUFFERS)
    ensures r.Ok? ==> r.value.2 == Sum(Produced(a, input, iterations, 0, WARMUP_BUFFERS))
  {
    var state := a.initial;
    var consumed, produced := 0, 0;
    for call := 0 to WARMUP_BUFFERS
      invariant state == StateAt(a, input, iterations, call)
      invariant Steady(a, input, iterations, chunk, call)
      invariant consumed == Frames(chunk, call) && produced == Sum(Produced(a, input, iterations, 0, call))
    {
      var answer := a.step(state, Process(input, false));
      assert answer.progress == Reply(a, input, iterations, call);
      if answer.progress.Err? {
        return Err(MeasureError.AdapterFailed(answer.progress.error));
      }
      state := answer.state;
      var progress := answer.progress.value;
      if progress.consumedFrames != chunk || progress.finished {
        return Err(InvalidWarmup);
      }
      consumed := consumed + progress.consumedFrames;
      produced := produced + progress.producedFrames;
    }
    return Ok((state, consumed, produced));
  }

  method TimedCalls<S>(a: Adapter<S>, input: seq<real>, chunk: nat, iterations: nat, clock: nat -> nat, start: S)
    returns (r: Result<(S, seq<real>, seq<nat>, seq<nat>), MeasureError>)
    requires start == StateAt(a, input, iterations, WARMUP_BUFFERS)
    requires Steady(a, input, iterations, chunk, WARMUP_BUFFERS)
    ensures r.Ok? <==> Steady(a, input, iterations, chunk, WARMUP_BUFFERS + iterations)
    ensures r.Ok? ==> r.value.0 == StateAt(a, input, iterations, WARMUP_BUFFERS + iterations)
    ensures r.Ok? ==> r.value.1 == Durations(clock, iterations) && r.value.2 == Repeated(chunk, iterations)
    ensures r.Ok? ==> r.value.3 == Produced(a, input, iterations, WARMUP_BUFFERS, WARMUP_BUFFERS + iterations)
  {
    var state := start;
    var durations: seq<real>, consumed: seq<nat>, produced: seq<nat> := [], [], [];
    for call := 0 to iterations
      invariant state == StateAt(a, input, iterations, WARMUP_BUFFERS + call)
      invariant Steady(a, input, iterations, chunk, WARMUP_BUFFERS + call)
      invariant durations == Durations(clock, call) && consumed == Repeated(chunk, call)
      invariant produced == Produced(a, input, iterations, WARMUP_BUFFERS, WARMUP_BUFFERS + call)
    {
      var answer := a.step(state, Process(input, call + 1 == iterations));
      assert answer.progress == Reply(a, input, iterations, WARMUP_BUFFERS + call);
      if answer.progress.Err? {
        return Err(MeasureError.AdapterFailed(answer.progress.error));
      }
      state := answer.state;
      var progress := answer.progress.value;
      if progress.consumedFrames != chunk || progress.finished {
        return Err(InvalidProgress(call));
      }
      durations := durations + [clock(call) as real];
      consumed := consumed + [progress.consumedFrames];
      produced := produced + [progress.producedFrames];
    }
    return Ok((state, durations, consumed, produced));
  }

  lemma {:induction false} SumOfEqual(n: nat, chunk: nat)
    ensures Sum(Repeated(chunk, n)) == Frames(chunk, n)
  {
    if n > 0 {
      assert Repeated(chunk, n)[..n - 1] == Repeated(chunk, n - 1);
      SumOfEqual(n - 1, chunk);
    }
  }

  /** Measuring succeeds exactly when the buffer is large enough, some call is timed, every call takes its
    * whole chunk, and draining raises no error.
    */
  ghost predicate Measurable<S>(created: Result<Adapter<S>, string>, input: seq<real>, iterations: nat, chunk: nat,
      capacity: nat) {
    && created.Ok?
    && capacity >= created.value.maxOutputFrames && capacity >= 1
    && iterations > 0
    && Steady(created.value, input, iterations, chunk, WARMUP_BUFFERS + iterations)
    && (var last := StateAt(created.value, input, iterations, WARMUP_BUFFERS + iterations);
        Drained(created.value, last, 0, MAX_DRAIN_CALLS).Ok?)
  }

  method Measure<S>(created: Result<Adapter<S>, string>, engine: EngineIdentity, rate: RatePair, input: seq<real>,
    iterations: nat, capacity: nat, clock: nat -> nat) returns (r: Result<CallLatency, MeasureError>)
    requires rate.channels > 0
    ensures r.Ok? <==> Measurable(created, input, iterations, |input| / rate.channels, capacity)
    ensures r.Ok? ==> CountsCalls(r.value, created.value, input, iterations, |input| / rate.channels)
    ensures r.Ok? ==> Balances(r.value, created.value, iterations, |input| / rate.channels)
    ensures r.Ok? ==> Summarizes(Durations(clock, iterations), r.value.processCallNs)
    ensures r.Ok? ==> Utilizes(r.value, SourceNs(|input| / rate.channels, rate.fromHz))
    ensures r.Ok? ==> r.value.identity == IdentityOf(engine, rate, capacity).(chunkFrames := |input| / rate.channels)
  {
    hide StateAt, Summarizes, Above, Steady, CountsCalls, Balances, Drained, SourceNs, Durations;
    var chunk := |input| / rate.channels;
    if created.Err? {
      return Err(MeasureError.NotCreated(created.error));
    }
    var a := created.value;
    if capacity < (if a.maxOutputFrames > 1 then a.maxOutputFrames else 1) {
      return Err(MeasureError.CapacityTooSmall);
    }
    var identity := IdentityOf(engine, rate, capacity).(chunkFrames := chunk);
    r := MeasureCalls(a, identity, input, chunk, iterations, clock, SourceNs(chunk, rate.fromHz));
  }

  method MeasureCalls<S>(a: Adapter<S>, identity: MeasurementIdentity, input: seq<real>, chunk: nat, iterations: nat,
    clock: nat -> nat, sourceNs: Quotient) returns (r: Result<CallLatency, MeasureError>)
    ensures r.Ok? <==> (
      && iterations > 0 && Steady(a, input, iterations, chunk, WARMUP_BUFFERS + iterations)
      && Drained(a, StateAt(a, input, iterations, WARMUP_BUFFERS + iterations), 0, MAX_DRAIN_CALLS).Ok?)
    ensures r.Ok? ==> CountsCalls(r.value, a, input, iterations, chunk) && Balances(r.value, a, iterations, chunk)
    ensures r.Ok? ==> Summarizes(Durations(clock, iterations), r.value.processCallNs)
    ensures r.Ok? ==> Utilizes(r.value, sourceNs) && r.value.identity == identity
  {
    hide StateAt, Summarizes, Above, Steady, Drained, Sum, Produced, Repeated, Frames;
    var warmup := Warmup(a, input, chunk, iterations);
    if warmup.Err? {
      SteadyPrefix(a, input, iterations, chunk);
      return Err(warmup.error);
    }
    var timed := TimedCalls(a, input, chunk, iterations, clock, warmup.value.0);
    if timed.Err? {
      return Err(timed.error);
    }
    var (state, durations, consumed, produced) := timed.value;
    SumOfEqual(iterations, chunk);
    FramesAdd(chunk, WARMUP_BUFFERS, iterations);
    var expected := a.expectedFrames(warmup.value.1 + Sum(consumed));
    var drained := DrainAdapter(a, state);
    if drained.Err? {
      return Err(MeasureError.AdapterFailed(drained.error));
    }
    var distribution := SummarizeCalls(durations);
    if distribution.Err? {
      return Err(NotSummarized(distribution.error));
    }
    var actual := warmup.value.2 + Sum(produced) + drained.value.0;
    var d := distribution.value;
    assert d.samples == durations by {
      SummaryKeepsSamples(durations, d);
    }
    return Ok(CallLatency(identity, d, consumed, produced, warmup.value.1, warmup.value.2, drained.value.0,
      drained.value.1, expected, actual, Percent(Divide(d.p99, sourceNs)), Above(d.samples, sourceNs),
      drained.value.1 && expected == actual));
  }

  lemma SummaryKeepsSamples(samples: seq<real>, d: TailDistribution)
    requires Summarizes(samples, d)
    ensures d.samples == samples
  {
  }

  lemma FramesAdd(chunk: nat, a: nat, b: nat)
    ensures Frames(chunk, a) + Frames(chunk, b) == Frames(chunk, a + b)
  {
  }

  lemma SteadyPrefix<S>(a: Adapter<S>, input: seq<real>, iterations: nat, chunk: nat)
    ensures Steady(a, input, iterations, chunk, WARMUP_BUFFERS + iterations) ==>
      Steady(a, input, iterations, chunk, WARMUP_BUFFERS)
  {
  }

  /** The share of the buffer's duration that the slowest calls take, and how many calls exceed it. */
  predicate Utilizes(m: CallLatency, bufferNs: Quotient) {
    && m.p99UtilizationPct == Percent(Divide(m.processCallNs.p99, bufferNs))
    && m.callsAboveBufferDuration == Above(m.processCallNs.samples, bufferNs)
  }

  // ---------- accepting a record ----------

  datatype ValidateError = MissingLatency | MissingIdentity | BadDistribution(error: LatencyError) | InvalidRecord

  function CheckedTotal(a: nat, b: nat, c: nat): Option<nat> {
    if a + b > USIZE_MAX then None else if a + b + c > USIZE_MAX then None else Some(a + b + c)
  }

  predicate WorkAdmitted(m: CallLatency, iterations: nat) {
    var actual := CheckedTotal(m.warmupOutputFrames, Sum(m.producedFramesPerCall), m.drainFrames);
    && |m.consumedFramesPerCall| == iterations && |m.producedFramesPerCall| == iterations
    && (forall n :: n in m.consumedFramesPerCall ==> n == CHUNK_FRAMES)
    && m.warmupConsumedFrames == Frames(CHUNK_FRAMES, WARMUP_BUFFERS)
    && actual == Some(m.actualCompleteOutputFrames)
    && m.valid && m.drainTerminal && actual == Some(m.expectedCompleteOutputFrames)
  }

  /** The work is admitted exactly when every timed call consumed 512 frames and the warm-up 32 times as many, the
    * record and its drain say so, and the output of all calls is the one expected and fits a machine word.
    */
  lemma WorkAdmittedExactly(m: CallLatency, iterations: nat)
    ensures WorkAdmitted(m, iterations) <==> (
      && m.valid && m.drainTerminal && m.warmupConsumedFrames == 32 * 512
      && |m.consumedFramesPerCall| == |m.producedFramesPerCall| == iterations
      && (forall k :: 0 <= k < |m.consumedFramesPerCall| ==> m.consumedFramesPerCall[k] == 512)
      && m.expectedCompleteOutputFrames == m.actualCompleteOutputFrames <= USIZE_MAX
      && m.actualCompleteOutputFrames == m.warmupOutputFrames + Sum(m.producedFramesPerCall) + m.drainFrames)
  {
    hide Sum;
    CheckedTotalExact(m.warmupOutputFrames, Sum(m.producedFramesPerCall), m.drainFrames);
    var consumed := m.consumedFramesPerCall;
    assert forall k :: 0 <= k < |consumed| ==> consumed[k] in consumed;
  }

  /** A record whose statistics are those of its own samples and whose work adds up. */
  ghost predicate Admits(m: CallLatency, identity: MeasurementIdentity, bufferNs: Quotient, iterations: nat) {
    var samples := m.processCallNs.samples;
    && m.identity == identity
    && samples != [] && (forall k :: 0 <= k < |samples| ==> samples[k] >= 0.0)
    && Summarizes(samples, m.processCallNs) && |samples| == iterations
    && WorkAdmitted(m, iterations)
    && SameQuotient(m.p99UtilizationPct, Percent(Divide(m.processCallNs.p99, bufferNs)))
    && m.callsAboveBufferDuration == Above(samples, bufferNs)
  }

  method Validate(latency: Option<CallLatency>, first: Option<MeasurementIdentity>, bufferNs: Quotient, iterations: nat)
    returns (r: Result<(), ValidateError>)
    ensures r.Ok? <==> latency.Some? && first.Some? && Admits(latency.value, first.value, bufferNs, iterations)
  {
    hide Summarizes, WorkAdmitted, Above, Divide, Percent;
    if latency.None? {
      return Err(MissingLatency);
    }
    if first.None? {
      return Err(MissingIdentity);
    }
    var m := latency.value;
    var distribution := SummarizeCalls(m.processCallNs.samples);
    if distribution.Err? {
      return Err(BadDistribution(distribution.error));
    }
    OnlySummary(m.processCallNs.samples, distribution.value, m.processCallNs);
    if m.identity != first.value || distribution.value != m.processCallNs || |distribution.value.samples| != iterations
      || !WorkAdmitted(m, iterations)
      || !SameQuotient(m.p99UtilizationPct, Percent(Divide(distribution.value.p99, bufferNs)))
      || m.callsAboveBufferDuration != Above(distribution.value.samples, bufferNs) {
      return Err(InvalidRecord);
    }
    return Ok(());
  }

  lemma OnlySummary(samples: seq<real>, d: TailDistribution, e: TailDistribution)
    requires Summarizes(samples, d)
    ensures d.samples == samples && (Summarizes(samples, e) <==> d == e)
  {
    if Summarizes(samples, e) {
      SummaryIsUnique(samples, d, e);
    }
  }

  /** A measured record is accepted exactly when it claims to be valid, was fed the standard chunk, and its
    * frames fit a machine word.
    */
  lemma MeasuredIsAccepted<S>(m: CallLatency, a: Adapter<S>, input: seq<real>, iterations: nat, chunk: nat,
    clock: nat -> nat, fromHz: nat)
    requires iterations > 0 && CountsCalls(m, a, input, iterations, chunk) && Balances(m, a, iterations, chunk)
    requires Summarizes(Durations(clock, iterations), m.processCallNs) && Utilizes(m, SourceNs(chunk, fromHz))
    ensures Admits(m, m.identity, SourceNs(chunk, fromHz), iterations)
      <==> m.valid && chunk == CHUNK_FRAMES && m.actualCompleteOutputFrames <= USIZE_MAX
  {
    hide CountsCalls, Balances, Summarizes, WorkAdmitted, Durations, Above, Divide, Percent, SourceNs;
    MeasuredWork(m, a, input, iterations, chunk);
    MeasuredDurations(m, clock, iterations);
    if chunk == CHUNK_FRAMES {
      NumberForStandardChunk(m.processCallNs.p99, fromHz);
    }
  }

  lemma MeasuredDurations(m: CallLatency, clock: nat -> nat, iterations: nat)
    requires Summarizes(Durations(clock, iterations), m.processCallNs)
    ensures var samples := m.processCallNs.samples;
      && |samples| == iterations && (forall k :: 0 <= k < |samples| ==> samples[k] >= 0.0)
      && Summarizes(samples, m.processCallNs)
  {
    SummaryKeepsSamples(Durations(clock, iterations), m.processCallNs);
    hide Summarizes;
  }

  lemma MeasuredWork<S>(m: CallLatency, a: Adapter<S>, input: seq<real>, iterations: nat, chunk: nat)
    requires iterations > 0 && CountsCalls(m, a, input, iterations, chunk) && Balances(m, a, iterations, chunk)
    ensures WorkAdmitted(m, iterations) <==>
      m.valid && chunk == CHUNK_FRAMES && m.actualCompleteOutputFrames <= USIZE_MAX
  {
    ProducedLength(a, input, iterations, WARMUP_BUFFERS, WARMUP_BUFFERS + iterations);
    hide Steady, StateAt, Drained, Sum, Produced, WorkAdmitted, Frames, Repeated;
    BalancedWork(m, iterations, chunk);
  }

  lemma NumberForStandardChunk(p99: real, fromHz: nat)
    ensures Percent(Divide(p99, SourceNs(CHUNK_FRAMES, fromHz))) != NotANumber
  {
    if fromHz > 0 {
      assert CHUNK_FRAMES as real / fromHz as real > 0.0;
    }
  }

  lemma BalancedWork(m: CallLatency, iterations: nat, chunk: nat)
    requires iterations > 0 && m.consumedFramesPerCall == Repeated(chunk, iterations)
      && |m.producedFramesPerCall| == iterations
    requires m.warmupConsumedFrames == Frames(chunk, WARMUP_BUFFERS)
    requires m.actualCompleteOutputFrames == m.warmupOutputFrames + Sum(m.producedFramesPerCall) + m.drainFrames
    requires m.valid == (m.drainTerminal && m.expectedCompleteOutputFrames == m.actualCompleteOutputFrames)
    ensures WorkAdmitted(m, iterations) <==>
      m.valid && chunk == CHUNK_FRAMES && m.actualCompleteOutputFrames <= USIZE_MAX
  {
    hide Sum, Frames;
    var consumed := m.consumedFramesPerCall;
    assert consumed[0] == chunk && consumed[0] in consumed;
    forall n | n in consumed ensures n == chunk {
      var k :| 0 <= k < |consumed| && consumed[k] == n;
    }
  }

  lemma {:induction false} ProducedLength<S>(a: Adapter<S>, input: seq<real>, iterations: nat, from: nat, until: nat)
    requires from <= until
    ensures |Produced(a, input, iterations, from, until)| == until - from
    decreases until
  {
    if from < until {
      ProducedLength(a, input, iterations, from, until - 1);
    }
  }

  /** In an accepted record the frames fed are the standard chunk times all calls, and the frames expected are
    * exactly those that came out.
    */
  lemma AcceptedAddsUp(m: CallLatency, identity: MeasurementIdentity, bufferNs: Quotient, iterations: nat)
    requires Admits(m, identity, bufferNs, iterations)
    ensures m.warmupConsumedFrames + Sum(m.consumedFramesPerCall) == Frames(CHUNK_FRAMES, WARMUP_BUFFERS + iterations)
    ensures m.expectedCompleteOutputFrames == m.warmupOutputFrames + Sum(m.producedFramesPerCall) + m.drainFrames
    ensures m.processCallNs.min <= m.processCallNs.median <= m.processCallNs.p99 <= m.processCallNs.max
  {
    SummaryAscends(m.processCallNs.samples, m.processCallNs);
    assert m.consumedFramesPerCall == Repeated(CHUNK_FRAMES, iterations) by {
      forall k | 0 <= k < iterations ensures m.consumedFramesPerCall[k] == CHUNK_FRAMES {
        assert m.consumedFramesPerCall[k] in m.consumedFramesPerCall;
      }
    }
    SumOfEqual(iterations, CHUNK_FRAMES);
    FramesAdd(CHUNK_FRAMES, WARMUP_BUFFERS, iterations);
  }
}
