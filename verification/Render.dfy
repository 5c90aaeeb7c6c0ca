/** Driving a resampler adapter over a whole signal: partial consumption, end-of-input marking, bounded draining. */
module Render {
  import opened Arithmetic
  import opened Outcomes
  import opened Trials

  const MAX_PROCESS_CALL_MULTIPLIER := 8
  const MAX_DRAIN_CALLS := 4096

  datatype AdapterProgress = AdapterProgress(consumedFrames: Usize, producedFrames: Usize, finished: bool)

  /** What the driver can ask of an adapter. */
  datatype Call = Process(input: seq<real>, final: bool) | Drain

  /** An adapter's answer: its next state, its progress or error, and what it left in the output buffer. */
  datatype Answer<S> = Answer(state: S, progress: Result<AdapterProgress, string>, written: nat -> real)

  /** Any adapter whatever: a step function over a private state. */
  datatype Adapter<!S> = Adapter(
    step: (S, Call) -> Answer<S>, initial: S, format: SampleFormat,
    expectedFrames: nat -> nat, maxOutputFrames: nat, bufferingLatency: Option<nat>)

  datatype RenderError =
    | NotCreated(message: string)
    | CapacityTooSmall
    | TooManyCalls
    | AdapterFailed(message: string)
    | ProgressOutOfRange
    | NoProgress
    | FinishedEarly
    | DrainStalled

  datatype RenderedSignal = RenderedSignal(
    samples: seq<real>, expectedFrames: nat, actualFrames: nat, bufferingLatency: Option<nat>,
    inputBeforeFirstOutput: Option<nat>, inputThroughFirstOutput: Option<nat>,
    firstOutputDuringDrain: bool, terminal: bool)

  lemma AtMonotone(a: nat, b: nat, channels: nat)
    requires a <= b
    ensures At(a, channels) <= At(b, channels)
    ensures At(b, channels) - At(a, channels) == At(b - a, channels)
  {
    assert b * channels == a * channels + (b - a) * channels;
  }

  lemma AtWhole(frames: nat, channels: nat)
    requires channels > 0
    ensures At(frames, channels) / channels == frames
    ensures At(0, channels) == 0
  {
    DivModUnique(frames * channels, channels, frames, 0);
  }

  // ---------- what a run of calls amounts to ----------

  /** One answered call: where the input stood, what was asked, what came back, and the samples that were kept. */
  datatype Event = Event(cursor: nat, call: Call, progress: AdapterProgress, emitted: seq<real>)

  ghost function StateAfter<S>(adapter: Adapter<S>, events: seq<Event>): S {
    if events == [] then adapter.initial
    else adapter.step(StateAfter(adapter, events[..|events| - 1]), events[|events| - 1].call).state
  }

  /** The events are the adapter's own answers to those calls in that order, and what was kept is the produced
    * prefix.
    */
  ghost predicate Genuine<S>(adapter: Adapter<S>, events: seq<Event>, channels: nat) {
    forall k :: 0 <= k < |events| ==> GenuineAt(adapter, events, k, channels)
  }

  ghost predicate GenuineAt<S>(adapter: Adapter<S>, events: seq<Event>, k: nat, channels: nat)
    requires k < |events|
  {
    var answer := adapter.step(StateAfter(adapter, events[..k]), events[k].call);
    && answer.progress == Ok(events[k].progress)
    && events[k].emitted == seq(At(events[k].progress.producedFrames, channels), (i: nat) => answer.written(i))
  }

  lemma GenuineExtends<S>(adapter: Adapter<S>, events: seq<Event>, event: Event, channels: nat)
    requires Genuine(adapter, events, channels)
    requires var answer := adapter.step(StateAfter(adapter, events), event.call);
      && answer.progress == Ok(event.progress)
      && event.emitted == seq(At(event.progress.producedFrames, channels), (i: nat) => answer.written(i))
    ensures Genuine(adapter, events + [event], channels)
    ensures StateAfter(adapter, events + [event]) == adapter.step(StateAfter(adapter, events), event.call).state
  {
    var longer := events + [event];
    assert longer[..|events|] == events;
    forall k | 0 <= k < |longer| ensures GenuineAt(adapter, longer, k, channels) {
      if k < |events| {
        assert GenuineAt(adapter, events, k, channels);
        assert longer[..k] == events[..k];
      }
    }
  }

  /** Frames consumed by a run of events. */
  ghost function Consumed(events: seq<Event>): nat {
    if events == [] then 0 else Consumed(events[..|events| - 1]) + events[|events| - 1].progress.consumedFrames
  }

  ghost function Produced(events: seq<Event>): nat {
    if events == [] then 0 else Produced(events[..|events| - 1]) + events[|events| - 1].progress.producedFrames
  }

  /** The kept samples of a run, in order. */
  ghost function Emitted(events: seq<Event>): seq<real> {
    if events == [] then [] else Emitted(events[..|events| - 1]) + events[|events| - 1].emitted
  }

  /** The input samples that the adapter reported as consumed, in order. */
  ghost function ConsumedSamples(events: seq<Event>, channels: nat): seq<real>
    requires forall k :: 0 <= k < |events| ==>
      events[k].call.Process? && At(events[k].progress.consumedFrames, channels) <= |events[k].call.input|
  {
    if events == [] then []
    else
      var last := events[|events| - 1];
      ConsumedSamples(events[..|events| - 1], channels) + last.call.input[..At(last.progress.consumedFrames, channels)]
  }

  /** The cursor and the frames through which the first output became available, if any call produced output. */
  ghost function FirstOutput(events: seq<Event>): Option<(nat, nat)> {
    if events == [] then None
    else
      var earlier, last := FirstOutput(events[..|events| - 1]), events[|events| - 1];
      if earlier.Some? then earlier
      else if last.progress.producedFrames > 0 then Some((last.cursor, last.cursor + last.progress.consumedFrames))
      else None
  }

  /** Where a chunk that starts at the cursor ends. */
  function ChunkEnd(cursor: nat, chunkFrames: nat, inputFrames: nat): nat {
    if cursor + chunkFrames <= inputFrames then cursor + chunkFrames else inputFrames
  }

  /** Event k offers the next chunk of the input, marked final exactly when it reaches the end, and made legal
    * progress.
    */
  ghost predicate OffersNext(events: seq<Event>, k: nat, input: seq<real>, channels: nat, chunkFrames: nat,
      inputFrames: nat, capacity: nat)
    requires k < |events| && |input| == At(inputFrames, channels)
  {
    var e := events[k];
    var end := ChunkEnd(e.cursor, chunkFrames, inputFrames);
    && e.cursor == Consumed(events[..k]) && e.cursor < inputFrames
    && At(e.cursor, channels) <= At(end, channels) <= |input|
    && e.call == Process(input[At(e.cursor, channels)..At(end, channels)], end == inputFrames)
    && Legal(e.progress, end - e.cursor, capacity)
    && !e.progress.finished
  }

  ghost predicate FeedsInput(events: seq<Event>, input: seq<real>, channels: nat, chunkFrames: nat,
      inputFrames: nat, capacity: nat)
    requires |input| == At(inputFrames, channels)
  {
    forall k :: 0 <= k < |events| ==> OffersNext(events, k, input, channels, chunkFrames, inputFrames, capacity)
  }

  /** Progress the driver accepts for a call that supplied this many frames. */
  predicate Legal(progress: AdapterProgress, supplied: nat, capacity: nat) {
    && progress.consumedFrames <= supplied && progress.producedFrames <= capacity
    && !(supplied > 0 && progress.consumedFrames == 0 && progress.producedFrames == 0)
  }

  /** Draining: every call but the last produced something and did not finish. */
  ghost predicate Drains(events: seq<Event>, capacity: nat, cursor: nat) {
    && |events| <= MAX_DRAIN_CALLS
    && (forall k :: 0 <= k < |events| ==>
      events[k].call == Drain && events[k].cursor == cursor && Legal(events[k].progress, 0, capacity))
    && (forall k :: 0 <= k < |events| - 1 ==> events[k].progress.producedFrames > 0 && !events[k].progress.finished)
  }

  // ---------- the driver ----------

  function ValidateDriverProgress(progress: AdapterProgress, supplied: nat, capacity: nat): (error: Option<RenderError>)
    ensures error.None? <==> Legal(progress, supplied, capacity)
    ensures error.Some? ==>
      (error.value.NoProgress? <==> progress.consumedFrames <= supplied && progress.producedFrames <= capacity)
    ensures error.Some? ==> error.value.NoProgress? || error.value.ProgressOutOfRange?
  {
    if progress.consumedFrames > supplied || progress.producedFrames > capacity then Some(ProgressOutOfRange)
    else if supplied > 0 && progress.consumedFrames == 0 && progress.producedFrames == 0 then Some(NoProgress)
    else None
  }

  function Saturate(n: nat): Usize {
    if n <= USIZE_MAX then n else USIZE_MAX
  }

  function MaximumCalls(inputFrames: nat, chunkFrames: nat): nat
    requires chunkFrames > 0
  {
    Saturate(Saturate((inputFrames + chunkFrames - 1) / chunkFrames * MAX_PROCESS_CALL_MULTIPLIER) + MAX_DRAIN_CALLS)
  }

  /** The call bound: eight calls for every chunk that the input fills or begins, and 4096 more, within a
    * machine word.
    */
  lemma CallBound(inputFrames: nat, chunkFrames: nat, chunks: nat)
    requires chunkFrames > 0 && inputFrames <= chunks * chunkFrames
    requires chunks > 0 ==> (chunks - 1) * chunkFrames < inputFrames
    ensures MaximumCalls(inputFrames, chunkFrames)
      == if 8 * chunks + 4096 <= USIZE_MAX then 8 * chunks + 4096 else USIZE_MAX
  {
    var padded := inputFrames + chunkFrames - 1;
    if chunks == 0 {
      assert chunks * chunkFrames == 0;
      DivModUnique(padded, chunkFrames, 0, padded);
    } else {
      assert chunks * chunkFrames == (chunks - 1) * chunkFrames + chunkFrames;
      DivModUnique(padded, chunkFrames, chunks, padded - chunks * chunkFrames);
    }
  }

  /** A chunk ends a whole chunk further on, or where the input does. */
  lemma ChunkEndExact(cursor: nat, chunkFrames: nat, inputFrames: nat)
    requires cursor < inputFrames && chunkFrames > 0
    ensures var end := ChunkEnd(cursor, chunkFrames, inputFrames);
      && cursor < end <= inputFrames && end - cursor <= chunkFrames
      && (end == inputFrames || end - cursor == chunkFrames)
  {
  }

  /** The buffer an answer leaves behind, and the produced prefix that the driver keeps. */
  function AppendOutput(samples: seq<real>, buffer: seq<real>, produced: nat, channels: nat): seq<real>
    requires At(produced, channels) <= |buffer|
  {
    samples + buffer[..At(produced, channels)]
  }

  datatype Fed<S> = Fed(state: S, samples: seq<real>, first: Option<(nat, nat)>)

  /** Feeds the whole input; on success the events are a genuine run that consumes it all. */
  method FeedAll<S>(adapter: Adapter<S>, input: seq<real>, channels: nat, chunkFrames: nat, inputFrames: nat,
      capacity: nat)
    returns (r: Result<Fed<S>, RenderError>, ghost events: seq<Event>)
    requires channels > 0 && chunkFrames > 0 && |input| == At(inputFrames, channels)
    ensures Genuine(adapter, events, channels)
    ensures FeedsInput(events, input, channels, chunkFrames, inputFrames, capacity)
    ensures |events| <= MaximumCalls(inputFrames, chunkFrames)
    ensures r.Ok? ==>
      && Consumed(events) == inputFrames
      && r.value == Fed(StateAfter(adapter, events), Emitted(events), FirstOutput(events))
    ensures r.Err? ==> Consumed(events) < inputFrames
    ensures r.Err? ==> FeedStops(adapter, events, input, channels, chunkFrames, inputFrames, capacity, r.error)
  {
    NothingFed(adapter, channels);
    hide MaximumCalls, At, Emitted, FirstOutput, StateAfter, Genuine, Consumed, FeedsInput;
    events := [];
    var state, cursor, processCalls := adapter.initial, 0, 0;
    var samples: seq<real>, first: Option<(nat, nat)> := [], None;
    var maximum := MaximumCalls(inputFrames, chunkFrames);
    while cursor < inputFrames
      invariant Genuine(adapter, events, channels) && state == StateAfter(adapter, events)
      invariant FeedsInput(events, input, channels, chunkFrames, inputFrames, capacity)
      invariant cursor == Consumed(events) <= inputFrames
      invariant processCalls == |events| <= maximum
      invariant samples == Emitted(events) && first == FirstOutput(events)
      decreases maximum - processCalls
    {
      processCalls := processCalls + 1;
      if processCalls > maximum {
        return Err(TooManyCalls), events;
      }
      var end := ChunkEnd(cursor, chunkFrames, inputFrames);
      AtMonotone(cursor, end, channels);
      AtMonotone(end, inputFrames, channels);
      var call := Process(input[At(cursor, channels)..At(end, channels)], end == inputFrames);
      var answer := adapter.step(state, call);
      if answer.progress.Err? {
        return Err(AdapterFailed(answer.progress.error)), events;
      }
      var progress := answer.progress.value;
      var bad := ValidateDriverProgress(progress, end - cursor, capacity);
      if bad.Some? {
        return Err(bad.value), events;
      }
      if progress.finished {
        return Err(FinishedEarly), events;
      }
      var buffer := seq(At(capacity, channels), (i: nat) => answer.written(i));
      AtMonotone(progress.producedFrames, capacity, channels);
      samples := AppendOutput(samples, buffer, progress.producedFrames, channels);
      if progress.producedFrames > 0 && first.None? {
        first := Some((cursor, cursor + progress.consumedFrames));
      }
      ghost var event := Event(cursor, call, progress, buffer[..At(progress.producedFrames, channels)]);
      assert event.emitted == seq(At(progress.producedFrames, channels), (i: nat) => answer.written(i));
      GenuineExtends(adapter, events, event, channels);
      Extended(events, event);
      FeedsExtends(events, event, input, channels, chunkFrames, inputFrames, capacity);
      events := events + [event];
      state, cursor := answer.state, cursor + progress.consumedFrames;
    }
    r := Ok(Fed(state, samples, first));
  }

  lemma NothingFed<S>(adapter: Adapter<S>, channels: nat)
    ensures Genuine(adapter, [], channels) && StateAfter(adapter, []) == adapter.initial
    ensures Consumed([]) == 0 && Emitted([]) == [] && FirstOutput([]) == None
    ensures forall input: seq<real>, chunkFrames: nat, inputFrames: nat, capacity: nat ::
      |input| == At(inputFrames, channels) ==>
      FeedsInput([], input, channels, chunkFrames, inputFrames, capacity)
  {
  }

  /** Why feeding stopped, given the run so far: no calls left, or what the adapter answered next. */
  ghost predicate FeedStops<S>(adapter: Adapter<S>, events: seq<Event>, input: seq<real>, channels: nat,
      chunkFrames: nat, inputFrames: nat, capacity: nat, error: RenderError)
    requires chunkFrames > 0 && |input| == At(inputFrames, channels) && Consumed(events) < inputFrames
  {
    var cursor := Consumed(events);
    var end := ChunkEnd(cursor, chunkFrames, inputFrames);
    AtMonotone(cursor, end, channels);
    AtMonotone(end, inputFrames, channels);
    var answer := adapter.step(StateAfter(adapter, events),
      Process(input[At(cursor, channels)..At(end, channels)], end == inputFrames));
    match error
    case TooManyCalls => |events| == MaximumCalls(inputFrames, chunkFrames)
    case AdapterFailed(message) => answer.progress == Err(message)
    case FinishedEarly => answer.progress.Ok? && answer.progress.value.finished
    case _ =>
      && answer.progress.Ok?
      && Some(error) == ValidateDriverProgress(answer.progress.value, end - cursor, capacity)
  }

  lemma Extended(events: seq<Event>, event: Event)
    ensures Consumed(events + [event]) == Consumed(events) + event.progress.consumedFrames
    ensures Produced(events + [event]) == Produced(events) + event.progress.producedFrames
    ensures Emitted(events + [event]) == Emitted(events) + event.emitted
    ensures FirstOutput(events + [event])
         == if FirstOutput(events).Some? then FirstOutput(events)
            else if event.progress.producedFrames > 0 then
              Some((event.cursor, event.cursor + event.progress.consumedFrames))
            else None
  {
    assert (events + [event])[..|events|] == events;
  }

  lemma FeedsExtends(events: seq<Event>, event: Event, input: seq<real>, channels: nat, chunkFrames: nat,
      inputFrames: nat, capacity: nat)
    requires |input| == At(inputFrames, channels)
    requires FeedsInput(events, input, channels, chunkFrames, inputFrames, capacity)
    requires var end := ChunkEnd(event.cursor, chunkFrames, inputFrames);
      && event.cursor == Consumed(events) && event.cursor < inputFrames
      && At(event.cursor, channels) <= At(end, channels) <= |input|
      && event.call == Process(input[At(event.cursor, channels)..At(end, channels)], end == inputFrames)
      && Legal(event.progress, end - event.cursor, capacity) && !event.progress.finished
    ensures FeedsInput(events + [event], input, channels, chunkFrames, inputFrames, capacity)
  {
    hide At;
    var longer := events + [event];
    forall k | 0 <= k < |longer| ensures OffersNext(longer, k, input, channels, chunkFrames, inputFrames, capacity) {
      if k < |events| {
        assert OffersNext(events, k, input, channels, chunkFrames, inputFrames, capacity);
        assert longer[..k] == events[..k];
      } else {
        assert longer[..k] == events;
      }
    }
  }

  datatype Drained = Drained(samples: seq<real>, first: Option<(nat, nat)>, firstDuringDrain: bool, terminal: bool)

  /** One drain call: the run so far is extended by the adapter's answer. */
  method DrainOnce<S>(adapter: Adapter<S>, run: Fed<S>, channels: nat, capacity: nat, cursor: nat,
      ghost events: seq<Event>)
    returns (r: Result<Fed<S>, RenderError>, progress: AdapterProgress, ghost event: Event)
    requires Genuine(adapter, events, channels)
    requires run == Fed(StateAfter(adapter, events), Emitted(events), FirstOutput(events))
    ensures r.Ok? ==>
      && Genuine(adapter, events + [event], channels)
      && r.value == Fed(StateAfter(adapter, events + [event]), Emitted(events + [event]), FirstOutput(events + [event]))
      && (run.first.Some? ==> r.value.first == run.first)
      && event.call == Drain && event.cursor == cursor && event.progress == progress && Legal(progress, 0, capacity)
    ensures r.Err? ==> DrainRefused(adapter, events, capacity, r.error)
  {
    hide At, Emitted, FirstOutput, StateAfter, Genuine;
    progress := AdapterProgress(0, 0, false);
    event := Event(cursor, Drain, progress, []);
    var answer := adapter.step(run.state, Drain);
    if answer.progress.Err? {
      return Err(AdapterFailed(answer.progress.error)), progress, event;
    }
    progress := answer.progress.value;
    var bad := ValidateDriverProgress(progress, 0, capacity);
    if bad.Some? {
      return Err(bad.value), progress, event;
    }
    assert progress.consumedFrames == 0;
    var buffer := seq(At(capacity, channels), (i: nat) => answer.written(i));
    AtMonotone(progress.producedFrames, capacity, channels);
    var samples := AppendOutput(run.samples, buffer, progress.producedFrames, channels);
    var first := if progress.producedFrames > 0 && run.first.None? then Some((cursor, cursor)) else run.first;
    event := Event(cursor, Drain, progress, buffer[..At(progress.producedFrames, channels)]);
    assert event.emitted == seq(At(progress.producedFrames, channels), (i: nat) => answer.written(i));
    GenuineExtends(adapter, events, event, channels);
    Extended(events, event);
    r := Ok(Fed(answer.state, samples, first));
  }

  /** Drains the adapter until it finishes or the call budget is spent. */
  method DrainAll<S>(adapter: Adapter<S>, fed: Fed<S>, channels: nat, capacity: nat, cursor: nat,
      ghost before: seq<Event>)
    returns (r: Result<Drained, RenderError>, ghost drains: seq<Event>)
    requires Genuine(adapter, before, channels)
    requires fed == Fed(StateAfter(adapter, before), Emitted(before), FirstOutput(before))
    ensures Genuine(adapter, before + drains, channels)
    ensures Drains(drains, capacity, cursor)
    ensures r.Ok? ==>
      && r.value.samples == Emitted(before + drains) && r.value.first == FirstOutput(before + drains)
      && (r.value.firstDuringDrain <==> FirstOutput(before).None? && r.value.first.Some?)
      && (r.value.terminal <==> drains != [] && drains[|drains| - 1].progress.finished)
      && (!r.value.terminal ==> |drains| == MAX_DRAIN_CALLS)
    ensures r.Err? ==> DrainStops(adapter, before, drains, capacity, r.error)
  {
    hide At, Emitted, FirstOutput, StateAfter, Genuine, Legal;
    drains := [];
    assert before + drains == before;
    var run, firstDuringDrain := fed, false;
    for n := 0 to MAX_DRAIN_CALLS
      invariant |drains| == n
      invariant Genuine(adapter, before + drains, channels)
      invariant run == Fed(StateAfter(adapter, before + drains), Emitted(before + drains), FirstOutput(before + drains))
      invariant Drains(drains, capacity, cursor)
      invariant drains != [] ==> !drains[n - 1].progress.finished && drains[n - 1].progress.producedFrames > 0
      invariant fed.first.Some? ==> run.first == fed.first
      invariant firstDuringDrain <==> fed.first.None? && run.first.Some?
    {
      var next, progress;
      ghost var event;
      next, progress, event := DrainOnce(adapter, run, channels, capacity, cursor, before + drains);
      if next.Err? {
        return Err(next.error), drains;
      }
      firstDuringDrain := firstDuringDrain || (run.first.None? && next.value.first.Some?);
      assert before + drains + [event] == before + (drains + [event]);
      run, drains := next.value, drains + [event];
      if progress.finished {
        return Ok(Drained(run.samples, run.first, firstDuringDrain, true)), drains;
      }
      if progress.producedFrames == 0 {
        return Err(DrainStalled), drains;
      }
    }
    r := Ok(Drained(run.samples, run.first, firstDuringDrain, false));
  }

  /** The adapter's answer to the next drain call is an error or illegal progress. */
  ghost predicate DrainRefused<S>(adapter: Adapter<S>, events: seq<Event>, capacity: nat, error: RenderError) {
    var answer := adapter.step(StateAfter(adapter, events), Drain);
    match error
    case AdapterFailed(message) => answer.progress == Err(message)
    case _ => answer.progress.Ok? && Some(error) == ValidateDriverProgress(answer.progress.value, 0, capacity)
  }

  /** Why draining stopped: a refusal after productive calls, or a last answer that neither produced nor finished. */
  ghost predicate DrainStops<S>(adapter: Adapter<S>, before: seq<Event>, drains: seq<Event>, capacity: nat,
      error: RenderError) {
    if error.DrainStalled? then
      drains != [] && drains[|drains| - 1].progress.producedFrames == 0 && !drains[|drains| - 1].progress.finished
    else
      && |drains| < MAX_DRAIN_CALLS && DrainRefused(adapter, before + drains, capacity, error)
      && (drains != [] ==> drains[|drains| - 1].progress.producedFrames > 0 && !drains[|drains| - 1].progress.finished)
  }

  // ---------- conservation ----------

  /** The consumed pieces put end to end are the input up to the cursor: nothing lost, repeated or reordered. */
  lemma {:induction false} ConsumedInOrder(events: seq<Event>, input: seq<real>, channels: nat, chunkFrames: nat,
      inputFrames: nat, capacity: nat)
    requires |input| == At(inputFrames, channels)
    requires FeedsInput(events, input, channels, chunkFrames, inputFrames, capacity)
    ensures Consumed(events) <= inputFrames && At(Consumed(events), channels) <= |input|
    ensures forall k :: 0 <= k < |events| ==>
      events[k].call.Process? && At(events[k].progress.consumedFrames, channels) <= |events[k].call.input|
    ensures ConsumedSamples(events, channels) == input[..At(Consumed(events), channels)]
  {
    hide At;
    if events == [] {
      AtMonotone(0, 0, channels);
      AtMonotone(0, inputFrames, channels);
    } else {
      var n := |events| - 1;
      var prefix, last := events[..n], events[n];
      forall k | 0 <= k < n ensures OffersNext(prefix, k, input, channels, chunkFrames, inputFrames, capacity) {
        assert OffersNext(events, k, input, channels, chunkFrames, inputFrames, capacity);
        assert prefix[..k] == events[..k];
      }
      ConsumedInOrder(prefix, input, channels, chunkFrames, inputFrames, capacity);
      assert OffersNext(events, n, input, channels, chunkFrames, inputFrames, capacity);
      var end := ChunkEnd(last.cursor, chunkFrames, inputFrames);
      var next := last.cursor + last.progress.consumedFrames;
      AtMonotone(last.cursor, next, channels);
      AtMonotone(next, end, channels);
      AtMonotone(end, inputFrames, channels);
      AtMonotone(last.cursor, end, channels);
      PieceOf(input, At(last.cursor, channels), At(next, channels), At(end, channels));
    }
  }

  lemma PieceOf(s: seq<real>, a: nat, b: nat, c: nat)
    requires a <= b <= c <= |s|
    ensures s[..a] + s[a..c][..b - a] == s[..b]
  {
  }

  /** What is kept is whole frames: as many as the calls produced. */
  lemma {:induction false} EmittedFrames<S>(adapter: Adapter<S>, events: seq<Event>, channels: nat)
    requires Genuine(adapter, events, channels)
    ensures |Emitted(events)| == At(Produced(events), channels)
  {
    hide At;
    if events == [] {
      AtMonotone(0, 0, channels);
    } else {
      var n := |events| - 1;
      var prefix, last := events[..n], events[n];
      forall k | 0 <= k < n ensures GenuineAt(adapter, prefix, k, channels) {
        assert GenuineAt(adapter, events, k, channels);
        assert prefix[..k] == events[..k];
      }
      EmittedFrames(adapter, prefix, channels);
      assert GenuineAt(adapter, events, n, channels);
      AtMonotone(Produced(prefix), Produced(events), channels);
    }
  }

  /** The first-output figures are there exactly when some call produced output, and they name that call's
    * input span.
    */
  lemma {:induction false} FirstOutputSpan(events: seq<Event>)
    ensures FirstOutput(events).Some? <==> exists k :: 0 <= k < |events| && events[k].progress.producedFrames > 0
    ensures FirstOutput(events).Some? ==> exists k :: 0 <= k < |events| && FirstAt(events, k)
  {
    if events != [] {
      var n := |events| - 1;
      var prefix := events[..n];
      FirstOutputSpan(prefix);
      if FirstOutput(prefix).Some? {
        var k :| 0 <= k < n && FirstAt(prefix, k);
        assert FirstAt(events, k);
      } else if events[n].progress.producedFrames > 0 {
        forall j | 0 <= j < n ensures events[j].progress.producedFrames == 0 {
          assert prefix[j] == events[j];
        }
        assert FirstAt(events, n);
      } else {
        forall j | 0 <= j < |events| ensures events[j].progress.producedFrames == 0 {
          if j < n {
            assert prefix[j] == events[j];
          }
        }
      }
    }
  }

  /** Event k is the first that produced output, and FirstOutput reports its span. */
  ghost predicate FirstAt(events: seq<Event>, k: nat)
    requires k < |events|
  {
    && events[k].progress.producedFrames > 0
    && (forall j :: 0 <= j < k ==> events[j].progress.producedFrames == 0)
    && FirstOutput(events) == Some((events[k].cursor, events[k].cursor + events[k].progress.consumedFrames))
  }

  // ---------- rendering a signal ----------

  /** The interleaved input: frame by frame, channel by channel. */
  function Interleaved(sampleAt: (nat, nat) -> real, frames: nat, channels: nat): (input: seq<real>)
    ensures |input| == At(frames, channels)
  {
    if frames == 0 then []
    else
      AtMonotone(frames - 1, frames, channels);
      Interleaved(sampleAt, frames - 1, channels) + Frame(sampleAt, frames - 1, channels)
  }

  function Frame(sampleAt: (nat, nat) -> real, frame: nat, channels: nat): (samples: seq<real>)
    ensures |samples| == channels
  {
    seq(channels, (channel: nat) => sampleAt(frame, channel))
  }

  method BuildInput(sampleAt: (nat, nat) -> real, frames: nat, channels: nat) returns (input: seq<real>)
    ensures input == Interleaved(sampleAt, frames, channels)
  {
    input := [];
    for frame := 0 to frames
      invariant input == Interleaved(sampleAt, frame, channels)
    {
      for channel := 0 to channels
        invariant input == Interleaved(sampleAt, frame, channels) + Frame(sampleAt, frame, channels)[..channel]
      {
        input := input + [sampleAt(frame, channel)];
      }
    }
  }

  /** Everything a successful rendering promises about the adapter's run. */
  ghost predicate Rendered<S>(adapter: Adapter<S>, input: seq<real>, channels: nat, chunkFrames: nat,
      inputFrames: nat, capacity: nat, feeds: seq<Event>, drains: seq<Event>, signal: RenderedSignal)
    requires channels > 0 && chunkFrames > 0 && |input| == At(inputFrames, channels)
  {
    && Genuine(adapter, feeds + drains, channels)
    && FeedsInput(feeds, input, channels, chunkFrames, inputFrames, capacity) && Consumed(feeds) == inputFrames
    && |feeds| <= MaximumCalls(inputFrames, chunkFrames)
    && Drains(drains, capacity, inputFrames)
    && signal.samples == Emitted(feeds + drains)
    && signal.actualFrames == Produced(feeds + drains)
    && signal.expectedFrames == adapter.expectedFrames(inputFrames)
    && signal.bufferingLatency == adapter.bufferingLatency
    && signal.terminal == (drains != [] && drains[|drains| - 1].progress.finished)
    && (!signal.terminal ==> |drains| == MAX_DRAIN_CALLS)
    && var first := FirstOutput(feeds + drains);
       && signal.inputBeforeFirstOutput == (if first.Some? then Some(first.value.0) else None)
       && signal.inputThroughFirstOutput == (if first.Some? then Some(first.value.1) else None)
       && (signal.firstOutputDuringDrain <==> FirstOutput(feeds).None? && first.Some?)
  }

  /** Whatever the outcome, the calls were made on the adapter in turn, offered the input in order, and stayed
    * within their bounds.
    */
  ghost predicate Driven<S>(adapter: Adapter<S>, input: seq<real>, channels: nat, chunkFrames: nat,
      inputFrames: nat, capacity: nat, feeds: seq<Event>, drains: seq<Event>)
    requires channels > 0 && chunkFrames > 0 && |input| == At(inputFrames, channels)
  {
    && Genuine(adapter, feeds + drains, channels)
    && FeedsInput(feeds, input, channels, chunkFrames, inputFrames, capacity)
    && |feeds| <= MaximumCalls(inputFrames, chunkFrames)
    && Drains(drains, capacity, inputFrames)
  }

  /** A failure stopped the feeding before any drain, or the draining after the whole input. */
  ghost predicate Stops<S>(adapter: Adapter<S>, input: seq<real>, channels: nat, chunkFrames: nat, inputFrames: nat,
      capacity: nat, feeds: seq<Event>, drains: seq<Event>, error: RenderError)
    requires channels > 0 && chunkFrames > 0 && |input| == At(inputFrames, channels)
  {
    if Consumed(feeds) < inputFrames then
      drains == [] && FeedStops(adapter, feeds, input, channels, chunkFrames, inputFrames, capacity, error)
    else
      Consumed(feeds) == inputFrames && DrainStops(adapter, feeds, drains, capacity, error)
  }

  /** The input in the adapter's own sample format. */
  function Supplied(input: seq<real>, format: SampleFormat, narrow: real -> real): (supplied: seq<real>)
    ensures |supplied| == |input|
  {
    match format
    case InterleavedF64 => input
    case InterleavedF32 => seq(|input|, i requires 0 <= i < |input| => narrow(input[i]))
  }

  lemma NothingDrained(feeds: seq<Event>, capacity: nat, cursor: nat)
    ensures feeds + [] == feeds && Drains([], capacity, cursor)
  {
  }

  method RenderSignal<S>(created: Result<Adapter<S>, string>, channels: nat, chunkFrames: nat, inputFrames: nat,
      capacity: nat, sampleAt: (nat, nat) -> real, narrow: real -> real)
    returns (r: Result<RenderedSignal, RenderError>, ghost feeds: seq<Event>, ghost drains: seq<Event>)
    requires channels > 0 && chunkFrames > 0
    ensures created.Err? ==> r == Err(NotCreated(created.error))
    ensures created.Ok? && (capacity == 0 || capacity < created.value.maxOutputFrames) ==> r == Err(CapacityTooSmall)
    ensures r.Ok? ==>
      && created.Ok?
      && Rendered(created.value, Supplied(Interleaved(sampleAt, inputFrames, channels), created.value.format, narrow),
                  channels, chunkFrames, inputFrames, capacity, feeds, drains, r.value)
    ensures created.Ok? && capacity >= 1 && capacity >= created.value.maxOutputFrames ==>
      var input := Supplied(Interleaved(sampleAt, inputFrames, channels), created.value.format, narrow);
      && Driven(created.value, input, channels, chunkFrames, inputFrames, capacity, feeds, drains)
      && (r.Err? ==> Stops(created.value, input, channels, chunkFrames, inputFrames, capacity, feeds, drains, r.error))
  {
    feeds, drains := [], [];
    var input := BuildInput(sampleAt, inputFrames, channels);
    if created.Err? {
      return Err(NotCreated(created.error)), feeds, drains;
    }
    var adapter := created.value;
    if capacity < (if adapter.maxOutputFrames > 1 then adapter.maxOutputFrames else 1) {
      return Err(CapacityTooSmall), feeds, drains;
    }
    hide At, MaximumCalls, Interleaved, Frame, Supplied, Genuine, FeedsInput, Drains, FeedStops, DrainStops;
    var supplied := Supplied(input, adapter.format, narrow);
    var fed;
    fed, feeds := FeedAll(adapter, supplied, channels, chunkFrames, inputFrames, capacity);
    NothingDrained(feeds, capacity, inputFrames);
    if fed.Err? {
      return Err(fed.error), feeds, drains;
    }
    var drained;
    drained, drains := DrainAll(adapter, fed.value, channels, capacity, inputFrames, feeds);
    if drained.Err? {
      return Err(drained.error), feeds, drains;
    }
    var outcome := drained.value;
    EmittedFrames(adapter, feeds + drains, channels);
    AtWhole(Produced(feeds + drains), channels);
    var actualFrames := |outcome.samples| / channels;
    r := Ok(RenderedSignal(outcome.samples, adapter.expectedFrames(inputFrames), actualFrames, adapter.bufferingLatency,
      if outcome.first.Some? then Some(outcome.first.value.0) else None,
      if outcome.first.Some? then Some(outcome.first.value.1) else None,
      outcome.firstDuringDrain, outcome.terminal));
  }

  /** The stream theorem: a successful rendering consumed exactly the whole input in order, kept exactly what
    * was produced, and dated the first output within the input.
    */
  lemma RenderedConserves<S>(adapter: Adapter<S>, input: seq<real>, channels: nat, chunkFrames: nat,
      inputFrames: nat, capacity: nat, feeds: seq<Event>, drains: seq<Event>, signal: RenderedSignal)
    requires channels > 0 && chunkFrames > 0 && |input| == At(inputFrames, channels)
    requires Rendered(adapter, input, channels, chunkFrames, inputFrames, capacity, feeds, drains, signal)
    ensures forall k :: 0 <= k < |feeds| ==>
      feeds[k].call.Process? && At(feeds[k].progress.consumedFrames, channels) <= |feeds[k].call.input|
    ensures ConsumedSamples(feeds, channels) == input
    ensures |signal.samples| == At(signal.actualFrames, channels)
    ensures signal.inputBeforeFirstOutput.Some? <==> signal.actualFrames > 0
    ensures signal.inputBeforeFirstOutput.Some? ==>
      && signal.inputThroughFirstOutput.Some?
      && signal.inputBeforeFirstOutput.value <= signal.inputThroughFirstOutput.value <= inputFrames
    ensures signal.firstOutputDuringDrain ==>
      signal.inputBeforeFirstOutput == signal.inputThroughFirstOutput == Some(inputFrames)
  {
    hide At, MaximumCalls;
    ConsumedInOrder(feeds, input, channels, chunkFrames, inputFrames, capacity);
    assert input[..|input|] == input;
    EmittedFrames(adapter, feeds + drains, channels);
    var all := feeds + drains;
    FirstOutputSpan(all);
    SomeProduced(all);
    FirstOutputSpan(feeds);
    if FirstOutput(all).Some? {
      var k :| 0 <= k < |all| && FirstAt(all, k);
      if k < |feeds| {
        assert OffersNext(feeds, k, input, channels, chunkFrames, inputFrames, capacity);
        assert all[k] == feeds[k];
      } else {
        assert all[k] == drains[k - |feeds|];
      }
    }
  }

  lemma {:induction false} SomeProduced(events: seq<Event>)
    ensures Produced(events) > 0 <==> exists k :: 0 <= k < |events| && events[k].progress.producedFrames > 0
  {
    if events != [] {
      var n := |events| - 1;
      var prefix := events[..n];
      SomeProduced(prefix);
      if k :| 0 <= k < n && prefix[k].progress.producedFrames > 0 {
        assert events[k].progress.producedFrames > 0;
      }
      forall k | 0 <= k < n ensures prefix[k] == events[k] {
      }
    }
  }

  // ---------- the analysis window ----------

  function SaturatingSub(a: nat, b: nat): nat {
    if b <= a then a - b else 0
  }

  /** Unsigned subtraction as the benches are built: it wraps. */
  function WrappingSub(a: Usize, b: Usize): Usize {
    if b <= a then a - b else a - b + USIZE_MAX + 1
  }

  function Min(a: nat, b: nat): nat {
    if a <= b then a else b
  }

  /** The usable stream ends where the nominal output does, or with the last rendered frame. */
  function UsefulEnd(actual: Usize, nominal: Usize, delay: Usize): Usize {
    Min(Saturate(delay + nominal), actual)
  }

  function AnalysisWindow(actual: Usize, nominal: Usize, sampleRate: nat, minimum: Usize, delay: Usize):
    Option<(Usize, Usize)>
  {
    var end := UsefulEnd(actual, nominal, delay);
    var requested := if sampleRate / 10 > 4096 then sampleRate / 10 else 4096;
    var guard := Min(requested, SaturatingSub(end, delay) / 4);
    var first, last := Saturate(delay + guard), SaturatingSub(end, guard);
    if SaturatingSub(last, first) >= minimum then Some((first, WrappingSub(last, first))) else None
  }

  /** The window holds the minimum, lies in the usable stream and keeps at least half of it. */
  ghost predicate SoundWindow(window: Option<(Usize, Usize)>, actual: Usize, nominal: Usize, minimum: Usize,
      delay: Usize) {
    window.Some? ==>
      var (start, count) := window.value;
      && count >= minimum && delay <= start && start + count <= UsefulEnd(actual, nominal, delay)
      && 2 * count >= UsefulEnd(actual, nominal, delay) - delay
  }

  /** The window in closed form: a tenth of a second or 4096 frames, a quarter of the usable stream at most, is kept
    * away from both of its ends.
    */
  lemma WindowExact(actual: Usize, nominal: Usize, sampleRate: nat, minimum: Usize, delay: Usize)
    ensures var end := if delay + nominal < actual then delay + nominal else actual;
      var wanted := if sampleRate / 10 > 4096 then sampleRate / 10 else 4096;
      && UsefulEnd(actual, nominal, delay) == end
      && (delay <= end ==>
            var guard := if wanted < (end - delay) / 4 then wanted else (end - delay) / 4;
            AnalysisWindow(actual, nominal, sampleRate, minimum, delay)
            == if end - delay - 2 * guard >= minimum then Some((delay + guard, end - delay - 2 * guard)) else None)
      && (delay > end && minimum > 0 ==> AnalysisWindow(actual, nominal, sampleRate, minimum, delay) == None)
  {
  }

  /** The window is sound exactly when a minimum is asked for or the rendering reaches past the delay. */
  lemma WindowSoundIff(actual: Usize, nominal: Usize, sampleRate: nat, minimum: Usize, delay: Usize)
    ensures SoundWindow(AnalysisWindow(actual, nominal, sampleRate, minimum, delay), actual, nominal, minimum, delay)
       <==> minimum > 0 || delay <= actual
  {
  }

  /** With no minimum, a delay past the end of the rendering yields a window that wraps around. */
  lemma WindowWraps()
    ensures AnalysisWindow(10, 5, 44100, 0, 20) == Some((20, USIZE_MAX - 9))
  {
  }
}
