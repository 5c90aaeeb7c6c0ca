/** Publishing a case from its trials, and the validator that rebuilds every published field from the raw records. */
module TrialPublication {
  import opened Outcomes
  import opened Trials
  import opened TrialSchedule

  datatype TrialDistribution = TrialDistribution(samples: seq<real>, min: real, median: real, p95: real, max: real)

  /** Summarising samples: a distribution or an error. */
  type Summarize = seq<real> -> Result<TrialDistribution, string>

  /** The quality summary is copied; only its validity matters here. */
  datatype QualitySummary = QualitySummary(valid: bool, details: string)

  datatype MetricClassification = Gate | Report | Skipped

  datatype WorkValidation = WorkValidation(
    classification: MetricClassification, valid: bool,
    expectedWarmupConsumedFrames: nat, warmupConsumedFrames: seq<Usize>,
    expectedTimedConsumedFrames: nat, timedConsumedFrames: seq<Usize>,
    expectedCompleteOutputFrames: seq<Usize>,
    warmupOutputFrames: seq<Usize>, steadyOutputFrames: seq<Usize>, drainFrames: seq<Usize>,
    actualCompleteOutputFrames: seq<Usize>, drainTerminal: seq<bool>)

  datatype ComparisonCase = ComparisonCase(
    caseKey: string, engine: EngineIdentity, ratePair: string, fromRateHz: nat, toRateHz: nat, channels: nat,
    chunkFrames: nat, outputCapacityFrames: nat,
    setupNs: TrialDistribution, steadyNsPerInputSample: TrialDistribution, steadyNsPerInputBuffer: TrialDistribution,
    steadyCyclesPerInputSample: Option<TrialDistribution>, steadyCyclesPerInputBuffer: Option<TrialDistribution>,
    resetNs: TrialDistribution, drainNs: TrialDistribution,
    sourceBufferDurationNs: real, medianUtilizationPct: real, p95UtilizationPct: real,
    quality: QualitySummary, workValidation: WorkValidation, trialRecords: seq<TrialRecord>,
    processCallLatency: Option<string>)

  datatype CaseError =
    | NoTrials
    | MissingTrial(index: nat)
    | MissingCycleCounter
    | NotSummarized(message: string)
    | Rejected(error: TrialError)
    | UnknownRatePair
    | MissingCapacity
    | WrongRecordCount
    | PublishedFieldsDisagree

  // ---------- complete records ----------

  /** The records in slot order; the first empty slot is an error. */
  function Collected(slots: Slots): (r: Result<seq<TrialRecord>, CaseError>)
    ensures r.Ok? <==> forall k :: 0 <= k < |slots| ==> slots[k].Some?
    ensures r.Ok? ==> |r.value| == |slots| && forall k :: 0 <= k < |slots| ==> slots[k] == Some(r.value[k])
    ensures r.Err? ==> r.error.MissingTrial? && r.error.index < |slots| && slots[r.error.index].None?
    ensures r.Err? ==> forall k :: 0 <= k < r.error.index ==> slots[k].Some?
  {
    if slots == [] then Ok([])
    else
      var n := |slots| - 1;
      match Collected(slots[..n])
      case Err(error) => Err(error)
      case Ok(records) => if slots[n].None? then Err(MissingTrial(n)) else Ok(records + [slots[n].value])
  }

  function CompleteRecords(slots: Slots): (r: Result<seq<TrialRecord>, CaseError>)
    ensures r.Ok? <==> slots != [] && forall k :: 0 <= k < |slots| ==> slots[k].Some?
    ensures r.Ok? ==> |r.value| == |slots| && forall k :: 0 <= k < |slots| ==> slots[k] == Some(r.value[k])
  {
    if slots == [] then Err(NoTrials) else Collected(slots)
  }

  // ---------- the published case ----------

  function Decimal(n: nat): string {
    if n < 10 then [('0' as int + n) as char] else Decimal(n / 10) + [('0' as int + n % 10) as char]
  }

  function FormatName(format: SampleFormat): string {
    match format
    case InterleavedF32 => "interleaved_f32"
    case InterleavedF64 => "interleaved_f64"
  }

  function CaseKey(i: MeasurementIdentity): string {
    "engine=" + i.engineId + ";format=" + FormatName(i.sampleFormat) + ";rate=" + i.ratePair
    + ";from=" + Decimal(i.fromRateHz) + ";to=" + Decimal(i.toRateHz) + ";channels=" + Decimal(i.channels)
    + ";frames=" + Decimal(i.chunkFrames) + ";algorithm=" + i.algorithmId
  }

  function Column<T>(records: seq<TrialRecord>, get: TrialMeasurement -> T): (column: seq<T>)
    ensures |column| == |records| && forall k :: 0 <= k < |records| ==> column[k] == get(records[k].measurement)
  {
    seq(|records|, k requires 0 <= k < |records| => get(records[k].measurement))
  }

  function Summarized(summarize: Summarize, samples: seq<real>): (r: Result<TrialDistribution, CaseError>)
    ensures r.Err? ==> r.error.NotSummarized? && summarize(samples) == Err(r.error.message)
  {
    match summarize(samples)
    case Ok(distribution) => Ok(distribution)
    case Err(message) => Err(NotSummarized(message))
  }

  function Present(values: seq<Option<real>>): (present: seq<real>)
    ensures |present| <= |values|
  {
    if values == [] then []
    else (if values[0].Some? then [values[0].value] else []) + Present(values[1..])
  }

  /** Cycle counters are all there, or none is. */
  function Cycles(summarize: Summarize, values: seq<Option<real>>): Result<Option<TrialDistribution>, CaseError> {
    var present := Present(values);
    if present == [] then Ok(None)
    else if |present| != |values| then Err(MissingCycleCounter)
    else match Summarized(summarize, present)
      case Ok(distribution) => Ok(Some(distribution))
      case Err(error) => Err(error)
  }

  /** One trial did the expected work and its frames add up without overflow. */
  predicate WorkAddsUp(m: TrialMeasurement, iterations: nat) {
    && m.warmupConsumedFrames == CHUNK_FRAMES * WARMUP_BUFFERS
    && m.timedConsumedFrames == CHUNK_FRAMES * iterations
    && m.expectedCompleteOutputFrames == m.actualCompleteOutputFrames
    && (var steady := CheckedAdd(m.warmupOutputFrames, m.steadyOutputFrames);
        var total := if steady.Some? then CheckedAdd(steady.value, m.drainFrames) else None;
        total == Some(m.actualCompleteOutputFrames))
    && m.drainTerminal
  }

  function WorkOf(records: seq<TrialRecord>, iterations: nat, quality: QualitySummary): WorkValidation {
    WorkValidation(
      Gate,
      quality.valid && forall k :: 0 <= k < |records| ==> WorkAddsUp(records[k].measurement, iterations),
      CHUNK_FRAMES * WARMUP_BUFFERS, Column(records, (m: TrialMeasurement) => m.warmupConsumedFrames),
      CHUNK_FRAMES * iterations, Column(records, (m: TrialMeasurement) => m.timedConsumedFrames),
      Column(records, (m: TrialMeasurement) => m.expectedCompleteOutputFrames),
      Column(records, (m: TrialMeasurement) => m.warmupOutputFrames),
      Column(records, (m: TrialMeasurement) => m.steadyOutputFrames),
      Column(records, (m: TrialMeasurement) => m.drainFrames),
      Column(records, (m: TrialMeasurement) => m.actualCompleteOutputFrames),
      Column(records, (m: TrialMeasurement) => m.drainTerminal))
  }

  function Utilization(ns: real, fromHz: nat): real
    requires fromHz > 0
  {
    var duration := BufferDuration(CHUNK_FRAMES, fromHz);
    assert duration > 0.0;
    ns / duration * 100.0
  }

  /** The case that complete records publish. */
  function Publish(engine: EngineIdentity, identity: MeasurementIdentity, records: seq<TrialRecord>, iterations: nat,
                   quality: QualitySummary, summarize: Summarize): Result<ComparisonCase, CaseError>
    requires identity.fromRateHz > 0
  {
    var sample := Summarized(summarize, Column(records, (m: TrialMeasurement) => m.steadyNsPerInputSample));
    var buffer := Summarized(summarize, Column(records, (m: TrialMeasurement) => m.steadyNsPerInputBuffer));
    var setup := Summarized(summarize, Column(records, (m: TrialMeasurement) => m.setupNs));
    var sampleCycles := Cycles(summarize, Column(records, (m: TrialMeasurement) => m.steadyCyclesPerInputSample));
    var bufferCycles := Cycles(summarize, Column(records, (m: TrialMeasurement) => m.steadyCyclesPerInputBuffer));
    var reset := Summarized(summarize, Column(records, (m: TrialMeasurement) => m.resetNs));
    var drain := Summarized(summarize, Column(records, (m: TrialMeasurement) => m.drainNs));
    if sample.Err? then Err(sample.error)
    else if buffer.Err? then Err(buffer.error)
    else if setup.Err? then Err(setup.error)
    else if sampleCycles.Err? then Err(sampleCycles.error)
    else if bufferCycles.Err? then Err(bufferCycles.error)
    else if reset.Err? then Err(reset.error)
    else if drain.Err? then Err(drain.error)
    else Ok(ComparisonCase(
      CaseKey(identity), engine, identity.ratePair, identity.fromRateHz, identity.toRateHz, identity.channels,
      identity.chunkFrames, identity.outputCapacityFrames,
      setup.value, sample.value, buffer.value, sampleCycles.value, bufferCycles.value, reset.value, drain.value,
      BufferDuration(CHUNK_FRAMES, identity.fromRateHz),
      Utilization(buffer.value.median, identity.fromRateHz),
      Utilization(buffer.value.p95, identity.fromRateHz),
      quality, WorkOf(records, iterations, quality), records, None))
  }

  /** Closing an accumulator: every slot must be filled. */
  function Finish(engine: EngineIdentity, identity: MeasurementIdentity, slots: Slots, iterations: nat,
                  quality: QualitySummary, summarize: Summarize): Result<ComparisonCase, CaseError>
    requires identity.fromRateHz > 0
  {
    match CompleteRecords(slots)
    case Err(error) => Err(error)
    case Ok(records) => Publish(engine, identity, records, iterations, quality, summarize)
  }

  // ---------- the validator ----------

  datatype Conditions = Conditions(trials: nat, iterationsPerTrial: nat, capacityByRate: map<string, nat>)

  /** The rate pair with this id, the first of several. */
  function FindRate(rates: seq<RatePair>, id: string): (r: Option<RatePair>)
    ensures r.Some? ==> r.value in rates && r.value.id == id
    ensures r.None? ==> forall rate :: rate in rates ==> rate.id != id
  {
    if rates == [] then None
    else if rates[0].id == id then Some(rates[0])
    else FindRate(rates[1..], id)
  }

  /** Of several rate pairs with one id the first is found. */
  lemma {:induction false} FirstRate(rates: seq<RatePair>, id: string, i: nat)
    requires i < |rates| && rates[i].id == id && forall j :: 0 <= j < i ==> rates[j].id != id
    ensures FindRate(rates, id) == Some(rates[i])
  {
    if i > 0 {
      FirstRate(rates[1..], id, i - 1);
    }
  }

  /** The identity every record of the case must carry. */
  function ExpectedIdentity(c: ComparisonCase, conditions: Conditions, rates: seq<RatePair>):
    Option<MeasurementIdentity>
  {
    var rate := FindRate(rates, c.ratePair);
    if rate.None? || rate.value.id !in conditions.capacityByRate then None
    else Some(IdentityOf(c.engine, rate.value, conditions.capacityByRate[rate.value.id]))
  }

  /** Record i is the trial of index i by the expected engine. */
  ghost predicate InOrder(records: seq<TrialRecord>, identity: MeasurementIdentity) {
    forall k :: 0 <= k < |records| ==> records[k].trialIndex == k && records[k].identity == identity
  }

  /** Republishing the case's own records gives the case back. */
  ghost predicate Republishes(c: ComparisonCase, conditions: Conditions, identity: MeasurementIdentity,
      summarize: Summarize)
    requires identity.fromRateHz > 0
  {
    c.trialRecords != []
    && Publish(c.engine, identity, c.trialRecords, conditions.iterationsPerTrial, c.quality, summarize)
       == Ok(c.(processCallLatency := None))
  }

  /** A case that tells the truth about its own raw records. */
  ghost predicate Truthful(c: ComparisonCase, conditions: Conditions, rates: seq<RatePair>, summarize: Summarize)
    requires forall rate :: rate in rates ==> rate.fromHz > 0
  {
    var identity := ExpectedIdentity(c, conditions, rates);
    && identity.Some?
    && |c.trialRecords| == conditions.trials
    && InOrder(c.trialRecords, identity.value)
    && Republishes(c, conditions, identity.value, summarize)
  }

  /** Slot k holds record k for the first n records, and the rest are empty. */
  ghost predicate Filled(slots: Slots, records: seq<TrialRecord>, n: nat)
    requires n <= |records|
  {
    && |slots| == |records|
    && (forall k :: 0 <= k < n ==> slots[k] == Some(records[k]))
    && (forall k :: n <= k < |slots| ==> slots[k].None?)
  }

  method ValidateCaseTrials(c: ComparisonCase, conditions: Conditions, rates: seq<RatePair>, summarize: Summarize)
    returns (r: Result<(), CaseError>)
    requires forall rate :: rate in rates ==> rate.fromHz > 0
    ensures r.Ok? <==> Truthful(c, conditions, rates, summarize)
  {
    hide WorkOf, Summarized, Cycles, CaseKey, Utilization, BufferDuration, Column, Publish, CompleteRecords, Finish;
    var rate := FindRate(rates, c.ratePair);
    if rate.None? {
      return Err(UnknownRatePair);
    }
    if rate.value.id !in conditions.capacityByRate {
      return Err(MissingCapacity);
    }
    var capacity := conditions.capacityByRate[rate.value.id];
    if |c.trialRecords| != conditions.trials {
      return Err(WrongRecordCount);
    }
    var accumulator := new CaseAccumulator(c.engine, rate.value, capacity, conditions.trials);
    ghost var identity := accumulator.identity;
    ghost var ordered := true;
    for n := 0 to |c.trialRecords|
      invariant accumulator.identity == identity && accumulator.engine == c.engine
      invariant |accumulator.records| == conditions.trials
      invariant ordered <==> InOrder(c.trialRecords[..n], identity)
      invariant ordered ==> Filled(accumulator.records, c.trialRecords, n)
      invariant forall k :: 0 <= k < |accumulator.records| && accumulator.records[k].Some? ==>
        accumulator.records[k].value.trialIndex == k && accumulator.records[k].value.identity == identity
    {
      ghost var record := c.trialRecords[n];
      ordered := ordered && record.trialIndex == n && record.identity == identity;
      InOrderStep(c.trialRecords, identity, n);
      var pushed := accumulator.Push(c.trialRecords[n]);
      if pushed.Err? {
        return Err(Rejected(pushed.error));
      }
    }
    assert c.trialRecords[..|c.trialRecords|] == c.trialRecords;
    var rebuilt := Finish(accumulator.engine, accumulator.identity, accumulator.records,
      conditions.iterationsPerTrial, c.quality, summarize);
    Rebuilt(accumulator.records, c, conditions, identity, summarize);
    if rebuilt.Err? {
      return Err(rebuilt.error);
    }
    var restored := rebuilt.value.(processCallLatency := c.processCallLatency);
    if restored != c {
      return Err(PublishedFieldsDisagree);
    }
    r := Ok(());
  }

  lemma InOrderStep(records: seq<TrialRecord>, identity: MeasurementIdentity, n: nat)
    requires n < |records|
    ensures InOrder(records[..n + 1], identity)
       <==> InOrder(records[..n], identity) && records[n].trialIndex == n && records[n].identity == identity
    ensures InOrder(records, identity) ==> InOrder(records[..n + 1], identity)
  {
    var shorter, longer := records[..n], records[..n + 1];
    assert forall k :: 0 <= k < n ==> shorter[k] == longer[k];
    assert longer[n] == records[n];
  }

  lemma PublishKeepsRecords(engine: EngineIdentity, identity: MeasurementIdentity, records: seq<TrialRecord>,
      iterations: nat, quality: QualitySummary, summarize: Summarize)
    requires identity.fromRateHz > 0
    ensures var r := Publish(engine, identity, records, iterations, quality, summarize);
      r.Ok? ==>
        && r.value.trialRecords == records && r.value.processCallLatency == None && r.value.engine == engine
        && r.value.ratePair == identity.ratePair && r.value.quality == quality
        && r.value.workValidation == WorkOf(records, iterations, quality)
  {
  }

  /** The rebuilt case equals the published one only if the slots are the case's own records, in order. */
  lemma Rebuilt(slots: Slots, c: ComparisonCase, conditions: Conditions, identity: MeasurementIdentity,
      summarize: Summarize)
    requires identity.fromRateHz > 0 && |slots| == |c.trialRecords|
    requires forall k :: 0 <= k < |slots| && slots[k].Some? ==>
      slots[k].value.trialIndex == k && slots[k].value.identity == identity
    requires InOrder(c.trialRecords, identity) ==> Filled(slots, c.trialRecords, |c.trialRecords|)
    ensures InOrder(c.trialRecords, identity) && Republishes(c, conditions, identity, summarize) ==> slots != []
    ensures var r := Finish(c.engine, identity, slots, conditions.iterationsPerTrial, c.quality, summarize);
      (r.Ok? && r.value.(processCallLatency := c.processCallLatency) == c)
      <==> InOrder(c.trialRecords, identity) && Republishes(c, conditions, identity, summarize)
  {
    hide WorkOf, Summarized, Cycles, CaseKey, Utilization, BufferDuration, Column, Publish;
    var complete := CompleteRecords(slots);
    if complete.Ok? {
      PublishKeepsRecords(c.engine, identity, complete.value, conditions.iterationsPerTrial, c.quality, summarize);
      if InOrder(c.trialRecords, identity) {
        assert complete.value == c.trialRecords;
      }
    }
  }

  // ---------- round trip ----------

  /** A case finished from a complete set of in-order trials under the stated conditions is accepted, whatever
    * latency pass is attached.
    */
  lemma FinishedCaseIsTruthful(engine: EngineIdentity, rate: RatePair, capacity: nat, slots: Slots,
      quality: QualitySummary, conditions: Conditions, rates: seq<RatePair>, summarize: Summarize,
      latency: Option<string>)
    requires forall r :: r in rates ==> r.fromHz > 0
    requires FindRate(rates, rate.id) == Some(rate)
    requires rate.id in conditions.capacityByRate && conditions.capacityByRate[rate.id] == capacity
    requires |slots| == conditions.trials
    requires forall k :: 0 <= k < |slots| && slots[k].Some? ==>
      slots[k].value.trialIndex == k && slots[k].value.identity == IdentityOf(engine, rate, capacity)
    ensures var r := Finish(engine, IdentityOf(engine, rate, capacity), slots, conditions.iterationsPerTrial, quality,
      summarize);
      r.Ok? ==> Truthful(r.value.(processCallLatency := latency), conditions, rates, summarize)
  {
    hide WorkOf, Summarized, Cycles, CaseKey, Utilization, BufferDuration, Column, Publish;
    var identity := IdentityOf(engine, rate, capacity);
    var complete := CompleteRecords(slots);
    if complete.Ok? {
      PublishKeepsRecords(engine, identity, complete.value, conditions.iterationsPerTrial, quality, summarize);
    }
  }

  /** In a truthful case the validity flag says that quality passed and that every trial consumed 32 chunks of 512
    * frames and then 512 frames an iteration, produced the expected number of frames as warm-up, steady and drained
    * output, and ended its drain; and a valid case's columns add up in every trial.
    */
  lemma TruthfulWork(c: ComparisonCase, conditions: Conditions, rates: seq<RatePair>, summarize: Summarize)
    requires forall rate :: rate in rates ==> rate.fromHz > 0
    requires Truthful(c, conditions, rates, summarize)
    ensures c.workValidation.valid
       <==> (c.quality.valid && forall k :: 0 <= k < |c.trialRecords| ==>
         var m := c.trialRecords[k].measurement;
         && m.warmupConsumedFrames == 512 * 32 && m.timedConsumedFrames == 512 * conditions.iterationsPerTrial
         && m.warmupOutputFrames + m.steadyOutputFrames + m.drainFrames == m.actualCompleteOutputFrames
         && m.expectedCompleteOutputFrames == m.actualCompleteOutputFrames && m.drainTerminal)
    ensures c.workValidation.valid ==> forall k :: 0 <= k < |c.trialRecords| ==>
      var m := c.trialRecords[k].measurement;
      && m.warmupOutputFrames + m.steadyOutputFrames + m.drainFrames
         == c.workValidation.actualCompleteOutputFrames[k] == c.workValidation.expectedCompleteOutputFrames[k]
      && c.trialRecords[k].trialIndex == k
  {
    var identity := ExpectedIdentity(c, conditions, rates).value;
    PublishKeepsRecords(c.engine, identity, c.trialRecords, conditions.iterationsPerTrial, c.quality, summarize);
  }

  // ---------- when a case is published ----------

  /** No trial has the cycle counter, or all have it and their values summarize. */
  ghost predicate CyclesPublishable(summarize: Summarize, values: seq<Option<real>>) {
    || (forall k :: 0 <= k < |values| ==> values[k].None?)
    || ((forall k :: 0 <= k < |values| ==> values[k].Some?)
        && summarize(seq(|values|, k requires 0 <= k < |values| && values[k].Some? => values[k].value)).Ok?)
  }

  lemma {:induction false} PresentCounts(values: seq<Option<real>>)
    ensures Present(values) == [] <==> forall k :: 0 <= k < |values| ==> values[k].None?
    ensures |Present(values)| == |values| <==> forall k :: 0 <= k < |values| ==> values[k].Some?
    ensures |Present(values)| == |values| ==> forall k :: 0 <= k < |values| ==> values[k] == Some(Present(values)[k])
  {
    if values != [] {
      var rest := values[1..];
      PresentCounts(rest);
      assert values == [values[0]] + rest;
      if values[0].Some? {
        assert Present(values) == [values[0].value] + Present(rest);
      }
    }
  }

  lemma CyclesSucceed(summarize: Summarize, values: seq<Option<real>>)
    ensures Cycles(summarize, values).Ok? <==> CyclesPublishable(summarize, values)
    ensures Cycles(summarize, values) == Err(MissingCycleCounter)
      <==> exists i, j :: 0 <= i < |values| && 0 <= j < |values| && values[i].Some? && values[j].None?
  {
    PresentCounts(values);
    if |Present(values)| == |values| {
      assert Present(values) == seq(|values|, k requires 0 <= k < |values| && values[k].Some? => values[k].value);
    }
  }

  /** Every distribution of the case can be made from these records. */
  ghost predicate Publishable(records: seq<TrialRecord>, summarize: Summarize) {
    && summarize(Column(records, (m: TrialMeasurement) => m.steadyNsPerInputSample)).Ok?
    && summarize(Column(records, (m: TrialMeasurement) => m.steadyNsPerInputBuffer)).Ok?
    && summarize(Column(records, (m: TrialMeasurement) => m.setupNs)).Ok?
    && summarize(Column(records, (m: TrialMeasurement) => m.resetNs)).Ok?
    && summarize(Column(records, (m: TrialMeasurement) => m.drainNs)).Ok?
    && CyclesPublishable(summarize, Column(records, (m: TrialMeasurement) => m.steadyCyclesPerInputSample))
    && CyclesPublishable(summarize, Column(records, (m: TrialMeasurement) => m.steadyCyclesPerInputBuffer))
  }

  lemma PublishSucceeds(engine: EngineIdentity, identity: MeasurementIdentity, records: seq<TrialRecord>,
      iterations: nat, quality: QualitySummary, summarize: Summarize)
    requires identity.fromRateHz > 0
    ensures Publish(engine, identity, records, iterations, quality, summarize).Ok? <==> Publishable(records, summarize)
  {
    CyclesSucceed(summarize, Column(records, (m: TrialMeasurement) => m.steadyCyclesPerInputSample));
    CyclesSucceed(summarize, Column(records, (m: TrialMeasurement) => m.steadyCyclesPerInputBuffer));
    hide Column, Cycles, CyclesPublishable, WorkOf, CaseKey, Utilization, BufferDuration;
  }

  /** Closing an accumulator succeeds exactly when there is a trial, every slot is filled, and every distribution can be
    * made from the records.
    */
  lemma FinishSucceeds(engine: EngineIdentity, identity: MeasurementIdentity, slots: Slots, iterations: nat,
      quality: QualitySummary, summarize: Summarize)
    requires identity.fromRateHz > 0
    ensures Finish(engine, identity, slots, iterations, quality, summarize).Ok?
      <==> CompleteRecords(slots).Ok? && Publishable(CompleteRecords(slots).value, summarize)
  {
    hide CompleteRecords, Publish, Publishable;
    if CompleteRecords(slots).Ok? {
      PublishSucceeds(engine, identity, CompleteRecords(slots).value, iterations, quality, summarize);
    }
  }

  /** The records an engine's measurements hold. */
  ghost function MeasuredRecords(measure: Measure, i: nat, identity: MeasurementIdentity, trials: nat): seq<TrialRecord>
    requires forall k: nat :: k < trials ==> Sound(measure, i, identity, k)
  {
    seq(trials, k requires 0 <= k < trials && Sound(measure, i, identity, k) => measure(i, k).value)
  }

  /** The measurements of every trial are sound, there is a trial, and every distribution can be made from them. */
  ghost predicate Succeeds(measure: Measure, i: nat, identity: MeasurementIdentity, trials: nat, summarize: Summarize) {
    && trials > 0 && (forall k: nat :: k < trials ==> Sound(measure, i, identity, k))
    && Publishable(MeasuredRecords(measure, i, identity, trials), summarize)
  }

  /** The records are the engine's measurements of trials 0, 1, 2 and so on. */
  ghost predicate Measured(measure: Measure, i: nat, records: seq<TrialRecord>, trials: nat) {
    |records| == trials && forall k: nat :: k < trials ==> measure(i, k) == Ok(records[k])
  }

  /** From measurement to publication: an engine that collected every trial publishes a case its validator accepts. */
  lemma CollectedCaseIsTruthful(measure: Measure, i: nat, engine: EngineIdentity, rate: RatePair, capacity: nat,
      quality: QualitySummary, conditions: Conditions, rates: seq<RatePair>, summarize: Summarize,
      latency: Option<string>)
    requires forall r :: r in rates ==> r.fromHz > 0
    requires FindRate(rates, rate.id) == Some(rate)
    requires rate.id in conditions.capacityByRate && conditions.capacityByRate[rate.id] == capacity
    ensures var identity := IdentityOf(engine, rate, capacity);
      var p := Alone(measure, i, identity, EmptySlots(conditions.trials), conditions.trials);
      var r := Finish(engine, identity, p.slots, conditions.iterationsPerTrial, quality, summarize);
      && (p.failure.Some? ==> r.Err?)
      && (r.Ok? <==> Succeeds(measure, i, identity, conditions.trials, summarize))
      && (r.Ok? ==> Truthful(r.value.(processCallLatency := latency), conditions, rates, summarize))
      && (r.Ok? ==> Measured(measure, i, r.value.trialRecords, conditions.trials))
  {
    hide Publish, WorkOf, Column, Alone, Publishable;
    var identity := IdentityOf(engine, rate, capacity);
    AloneFromFresh(measure, i, identity, conditions.trials, conditions.trials);
    var p := Alone(measure, i, identity, EmptySlots(conditions.trials), conditions.trials);
    var complete := CompleteRecords(p.slots);
    FinishSucceeds(engine, identity, p.slots, conditions.iterationsPerTrial, quality, summarize);
    if p.failure.Some? {
      assert p.slots[p.failure.value.trial].None?;
      assert !Sound(measure, i, identity, p.failure.value.trial);
    } else if complete.Ok? {
      assert complete.value == MeasuredRecords(measure, i, identity, conditions.trials);
      PublishKeepsRecords(engine, identity, complete.value, conditions.iterationsPerTrial, quality, summarize);
      FinishedCaseIsTruthful(engine, rate, capacity, p.slots, quality, conditions, rates, summarize, latency);
    }
  }
}
