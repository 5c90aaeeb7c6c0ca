/** What every published field of an accepted case says about its raw records, field by field. */
module TrialFields {
  import opened Outcomes
  import opened TrialPublication
  import opened Trials
  import opened Vectors

  lemma ColumnIs<T>(records: seq<TrialRecord>, get: TrialMeasurement -> T, column: seq<T>)
    requires |column| == |records| && forall k :: 0 <= k < |records| ==> column[k] == get(records[k].measurement)
    ensures Column(records, get) == column
  {
  }

  /** The distribution summarizes these values. */
  ghost predicate Describes(summarize: Summarize, d: TrialDistribution, values: seq<real>) {
    summarize(values) == Ok(d)
  }

  /** The cycle distribution is absent when no trial has the counter, and otherwise summarizes the counters of all. */
  ghost predicate DescribesCycles(summarize: Summarize, d: Option<TrialDistribution>, values: seq<Option<real>>) {
    if d.None? then forall k :: 0 <= k < |values| ==> values[k].None?
    else exists present: seq<real> ::
      Describes(summarize, d.value, present) && |present| == |values|
      && forall k :: 0 <= k < |values| ==> values[k] == Some(present[k])
  }

  lemma CyclesDescribe(summarize: Summarize, values: seq<Option<real>>)
    requires Cycles(summarize, values).Ok?
    ensures DescribesCycles(summarize, Cycles(summarize, values).value, values)
  {
    PresentCounts(values);
    var present := Present(values);
    if present != [] {
      assert Describes(summarize, Cycles(summarize, values).value.value, present);
    }
  }

  /** The five timing distributions each summarize their own measurement. */
  ghost predicate TimingsTrue(c: ComparisonCase, summarize: Summarize) {
    var n := |c.trialRecords|;
    && Describes(summarize, c.setupNs, seq(n, k requires 0 <= k < n => c.trialRecords[k].measurement.setupNs))
    && Describes(summarize, c.steadyNsPerInputSample,
         seq(n, k requires 0 <= k < n => c.trialRecords[k].measurement.steadyNsPerInputSample))
    && Describes(summarize, c.steadyNsPerInputBuffer,
         seq(n, k requires 0 <= k < n => c.trialRecords[k].measurement.steadyNsPerInputBuffer))
    && Describes(summarize, c.resetNs, seq(n, k requires 0 <= k < n => c.trialRecords[k].measurement.resetNs))
    && Describes(summarize, c.drainNs, seq(n, k requires 0 <= k < n => c.trialRecords[k].measurement.drainNs))
  }

  ghost predicate CyclesTrue(c: ComparisonCase, summarize: Summarize) {
    var n := |c.trialRecords|;
    && DescribesCycles(summarize, c.steadyCyclesPerInputSample,
         seq(n, k requires 0 <= k < n => c.trialRecords[k].measurement.steadyCyclesPerInputSample))
    && DescribesCycles(summarize, c.steadyCyclesPerInputBuffer,
         seq(n, k requires 0 <= k < n => c.trialRecords[k].measurement.steadyCyclesPerInputBuffer))
  }

  /** A buffer lasts the standard chunk at the case's rate, and the utilizations are the median and the 95th percentile
    * of the buffer times against it.
    */
  ghost predicate UtilizationTrue(c: ComparisonCase) {
    && c.chunkFrames == 512
    && c.sourceBufferDurationNs > 0.0
    && Mul(c.sourceBufferDurationNs, c.fromRateHz as real) == 512.0 * 1000000000.0
    && Mul(c.medianUtilizationPct, c.sourceBufferDurationNs) == c.steadyNsPerInputBuffer.median * 100.0
    && Mul(c.p95UtilizationPct, c.sourceBufferDurationNs) == c.steadyNsPerInputBuffer.p95 * 100.0
  }

  /** Each work column holds its own counter of every trial. */
  ghost predicate WorkTrue(c: ComparisonCase, iterations: nat) {
    var w, n := c.workValidation, |c.trialRecords|;
    && w.classification == Gate
    && w.expectedWarmupConsumedFrames == 32 * 512 && w.expectedTimedConsumedFrames == 512 * iterations
    && |w.warmupConsumedFrames| == n && |w.timedConsumedFrames| == n && |w.expectedCompleteOutputFrames| == n
    && |w.warmupOutputFrames| == n && |w.steadyOutputFrames| == n && |w.drainFrames| == n
    && |w.actualCompleteOutputFrames| == n && |w.drainTerminal| == n
    && forall k :: 0 <= k < n ==> WorkRow(w, c.trialRecords[k].measurement, k)
  }

  ghost predicate WorkRow(w: WorkValidation, m: TrialMeasurement, k: nat) {
    && k < |w.warmupConsumedFrames| && k < |w.timedConsumedFrames| && k < |w.expectedCompleteOutputFrames|
    && k < |w.warmupOutputFrames| && k < |w.steadyOutputFrames| && k < |w.drainFrames|
    && k < |w.actualCompleteOutputFrames| && k < |w.drainTerminal|
    && w.warmupConsumedFrames[k] == m.warmupConsumedFrames
    && w.timedConsumedFrames[k] == m.timedConsumedFrames
    && w.expectedCompleteOutputFrames[k] == m.expectedCompleteOutputFrames
    && w.warmupOutputFrames[k] == m.warmupOutputFrames
    && w.steadyOutputFrames[k] == m.steadyOutputFrames
    && w.drainFrames[k] == m.drainFrames
    && w.actualCompleteOutputFrames[k] == m.actualCompleteOutputFrames
    && w.drainTerminal[k] == m.drainTerminal
  }

  /** The case names its engine, the rate pair of its id and the capacity agreed for it, and so does every record. */
  ghost predicate IdentityTrue(c: ComparisonCase, conditions: Conditions, rates: seq<RatePair>) {
    exists rate :: rate in rates && rate.id == c.ratePair && rate.id in conditions.capacityByRate
      && c.fromRateHz == rate.fromHz && c.toRateHz == rate.toHz && c.channels == rate.channels
      && c.outputCapacityFrames == conditions.capacityByRate[rate.id]
      && forall k :: 0 <= k < |c.trialRecords| ==> NamesCase(c.trialRecords[k].identity, c)
  }

  ghost predicate NamesCase(i: MeasurementIdentity, c: ComparisonCase) {
    && i.engineId == c.engine.engineId && i.algorithmId == c.engine.algorithmId
    && i.sampleFormat == c.engine.sampleFormat && i.ratePair == c.ratePair
    && i.fromRateHz == c.fromRateHz && i.toRateHz == c.toRateHz && i.channels == c.channels
    && i.chunkFrames == c.chunkFrames && i.outputCapacityFrames == c.outputCapacityFrames
    && CaseKey(i) == c.caseKey
  }

  /** What publishing makes of records, one field at a time. */
  lemma PublishedTimings(c: ComparisonCase, engine: EngineIdentity, identity: MeasurementIdentity,
      records: seq<TrialRecord>, iterations: nat, quality: QualitySummary, summarize: Summarize)
    requires identity.fromRateHz > 0
    requires Publish(engine, identity, records, iterations, quality, summarize) == Ok(c)
    ensures c.trialRecords == records && TimingsTrue(c, summarize)
  {
    hide WorkOf, CaseKey, Utilization, BufferDuration, Cycles, Column;
    var n := |records|;
    ColumnIs(records, (m: TrialMeasurement) => m.setupNs,
      seq(n, k requires 0 <= k < n => records[k].measurement.setupNs));
    ColumnIs(records, (m: TrialMeasurement) => m.steadyNsPerInputSample,
      seq(n, k requires 0 <= k < n => records[k].measurement.steadyNsPerInputSample));
    ColumnIs(records, (m: TrialMeasurement) => m.steadyNsPerInputBuffer,
      seq(n, k requires 0 <= k < n => records[k].measurement.steadyNsPerInputBuffer));
    ColumnIs(records, (m: TrialMeasurement) => m.resetNs,
      seq(n, k requires 0 <= k < n => records[k].measurement.resetNs));
    ColumnIs(records, (m: TrialMeasurement) => m.drainNs,
      seq(n, k requires 0 <= k < n => records[k].measurement.drainNs));
  }

  lemma PublishedCycles(c: ComparisonCase, engine: EngineIdentity, identity: MeasurementIdentity,
      records: seq<TrialRecord>, iterations: nat, quality: QualitySummary, summarize: Summarize)
    requires identity.fromRateHz > 0
    requires Publish(engine, identity, records, iterations, quality, summarize) == Ok(c)
    ensures c.trialRecords == records && CyclesTrue(c, summarize)
  {
    hide WorkOf, CaseKey, Utilization, BufferDuration, Cycles, Column, DescribesCycles, Summarized;
    var n := |records|;
    var perSample := seq(n, k requires 0 <= k < n => records[k].measurement.steadyCyclesPerInputSample);
    var perBuffer := seq(n, k requires 0 <= k < n => records[k].measurement.steadyCyclesPerInputBuffer);
    ColumnIs(records, (m: TrialMeasurement) => m.steadyCyclesPerInputSample, perSample);
    ColumnIs(records, (m: TrialMeasurement) => m.steadyCyclesPerInputBuffer, perBuffer);
    CyclesDescribe(summarize, perSample);
    CyclesDescribe(summarize, perBuffer);
  }

  lemma UtilizationTimesDuration(ns: real, fromHz: nat)
    requires fromHz > 0
    ensures Mul(Utilization(ns, fromHz), BufferDuration(512, fromHz)) == ns * 100.0
  {
    DurationTimesRate(512, fromHz);
    hide BufferDuration;
    var d := BufferDuration(512, fromHz);
    var q := ns / d;
    assert q * d == ns;
  }

  lemma PublishedUtilization(c: ComparisonCase, engine: EngineIdentity, identity: MeasurementIdentity,
      records: seq<TrialRecord>, iterations: nat, quality: QualitySummary, summarize: Summarize)
    requires identity.fromRateHz > 0 && identity.chunkFrames == 512
    requires Publish(engine, identity, records, iterations, quality, summarize) == Ok(c)
    ensures UtilizationTrue(c)
  {
    hide WorkOf, CaseKey, Cycles, Column, Summarized, Utilization, BufferDuration;
    DurationTimesRate(512, identity.fromRateHz);
    UtilizationTimesDuration(c.steadyNsPerInputBuffer.median, identity.fromRateHz);
    UtilizationTimesDuration(c.steadyNsPerInputBuffer.p95, identity.fromRateHz);
    hide Mul;
  }

  lemma PublishedWork(c: ComparisonCase, engine: EngineIdentity, identity: MeasurementIdentity,
      records: seq<TrialRecord>, iterations: nat, quality: QualitySummary, summarize: Summarize)
    requires identity.fromRateHz > 0
    requires Publish(engine, identity, records, iterations, quality, summarize) == Ok(c)
    ensures c.trialRecords == records && WorkTrue(c, iterations)
  {
    hide CaseKey, Cycles, Summarized, Utilization, BufferDuration;
    assert c.workValidation == WorkOf(records, iterations, quality);
    WorkColumns(records, iterations, quality);
    hide WorkOf, WorkRow;
  }

  lemma WorkColumns(records: seq<TrialRecord>, iterations: nat, quality: QualitySummary)
    ensures var w := WorkOf(records, iterations, quality);
      && forall k :: 0 <= k < |records| ==> WorkRow(w, records[k].measurement, k)
  {
  }

  lemma PublishedIdentity(c: ComparisonCase, engine: EngineIdentity, identity: MeasurementIdentity,
      records: seq<TrialRecord>, iterations: nat, quality: QualitySummary, summarize: Summarize)
    requires identity.fromRateHz > 0
    requires Publish(engine, identity, records, iterations, quality, summarize) == Ok(c)
    ensures c.engine == engine && c.ratePair == identity.ratePair && c.fromRateHz == identity.fromRateHz
    ensures c.toRateHz == identity.toRateHz && c.channels == identity.channels
    ensures c.chunkFrames == identity.chunkFrames && c.outputCapacityFrames == identity.outputCapacityFrames
    ensures c.caseKey == CaseKey(identity) && c.trialRecords == records && c.quality == quality
  {
    hide CaseKey, Cycles, Summarized, Utilization, BufferDuration, WorkOf, Column;
  }

  lemma ExpectedFields(c: ComparisonCase, conditions: Conditions, rates: seq<RatePair>) returns (rate: RatePair)
    requires ExpectedIdentity(c, conditions, rates).Some?
    ensures var i := ExpectedIdentity(c, conditions, rates).value;
      && rate in rates && rate.id == c.ratePair && rate.id in conditions.capacityByRate
      && i.engineId == c.engine.engineId && i.algorithmId == c.engine.algorithmId
      && i.sampleFormat == c.engine.sampleFormat && i.ratePair == rate.id && i.fromRateHz == rate.fromHz
      && i.toRateHz == rate.toHz && i.channels == rate.channels && i.chunkFrames == 512
      && i.outputCapacityFrames == conditions.capacityByRate[rate.id]
  {
    rate := FindRate(rates, c.ratePair).value;
  }

  /** In an accepted case every published field says what it is named for, of the case's own records. */
  lemma AcceptedFields(c: ComparisonCase, conditions: Conditions, rates: seq<RatePair>, summarize: Summarize)
    requires forall rate :: rate in rates ==> rate.fromHz > 0
    requires Truthful(c, conditions, rates, summarize)
    ensures TimingsTrue(c, summarize) && CyclesTrue(c, summarize) && UtilizationTrue(c)
    ensures WorkTrue(c, conditions.iterationsPerTrial) && IdentityTrue(c, conditions, rates)
  {
    var i := ExpectedIdentity(c, conditions, rates).value;
    var rate := ExpectedFields(c, conditions, rates);
    var bare := c.(processCallLatency := None);
    assert Publish(c.engine, i, c.trialRecords, conditions.iterationsPerTrial, c.quality, summarize) == Ok(bare);
    assert InOrder(c.trialRecords, i);
    hide Publish, Truthful, ExpectedIdentity, Describes, DescribesCycles, WorkRow, CaseKey, Mul;
    PublishedTimings(bare, c.engine, i, c.trialRecords, conditions.iterationsPerTrial, c.quality, summarize);
    PublishedCycles(bare, c.engine, i, c.trialRecords, conditions.iterationsPerTrial, c.quality, summarize);
    PublishedUtilization(bare, c.engine, i, c.trialRecords, conditions.iterationsPerTrial, c.quality, summarize);
    PublishedWork(bare, c.engine, i, c.trialRecords, conditions.iterationsPerTrial, c.quality, summarize);
    PublishedIdentity(bare, c.engine, i, c.trialRecords, conditions.iterationsPerTrial, c.quality, summarize);
    forall k | 0 <= k < |c.trialRecords| ensures NamesCase(c.trialRecords[k].identity, c) {
      assert c.trialRecords[k].identity == i;
    }
  }

  // ---------- the case key ----------

  /** The number a decimal text spells. */
  ghost function Spelled(text: string): int {
    if text == [] then 0 else 10 * Spelled(text[..|text| - 1]) + (text[|text| - 1] as int - '0' as int)
  }

  /** Counts are written in decimal. */
  lemma {:induction false} DecimalSpells(n: nat)
    ensures Decimal(n) != [] && Spelled(Decimal(n)) == n
    ensures forall k :: 0 <= k < |Decimal(n)| ==> '0' <= Decimal(n)[k] <= '9'
  {
    var digit := [('0' as int + n % 10) as char];
    if n >= 10 {
      DecimalSpells(n / 10);
      var front := Decimal(n / 10);
      assert Decimal(n) == front + digit;
      assert (front + digit)[..|front|] == front;
    } else {
      assert Decimal(n) == digit && digit[..0] == [];
    }
  }

  ghost predicate Contains(text: string, piece: string) {
    exists before, behind :: text == before + piece + behind
  }

  /** Labels and values in turn. */
  ghost function Labelled(labels: seq<string>, values: seq<string>, n: nat): string
    requires n <= |labels| && n <= |values|
  {
    if n == 0 then "" else Labelled(labels, values, n - 1) + labels[n - 1] + values[n - 1]
  }

  /** Every value stands between its own label and the next one. */
  lemma {:induction false} LabelledPiece(labels: seq<string>, values: seq<string>, n: nat, k: nat)
    requires k < n <= |labels| && n <= |values|
    ensures Contains(Labelled(labels, values, n), labels[k] + values[k] + if k + 1 < n then labels[k + 1] else "")
  {
    var before, name, value := Labelled(labels, values, n - 1), labels[n - 1], values[n - 1];
    var text := Labelled(labels, values, n);
    assert text == before + name + value;
    if k == n - 1 {
      assert text == before + (name + value + "") + "";
    } else if k == n - 2 {
      var start := Labelled(labels, values, n - 2);
      assert before == start + labels[k] + values[k];
      assert text == start + (labels[k] + values[k] + name) + value;
    } else {
      LabelledPiece(labels, values, n - 1, k);
      var piece := labels[k] + values[k] + labels[k + 1];
      var a, b :| before == a + piece + b;
      assert text == a + piece + (b + name + value);
    }
  }

  const KEY_LABELS: seq<string> :=
    ["engine=", ";format=", ";rate=", ";from=", ";to=", ";channels=", ";frames=", ";algorithm="]

  ghost function KeyValues(i: MeasurementIdentity): (values: seq<string>)
    ensures |values| == 8
  {
    var format := if i.sampleFormat == InterleavedF32 then "interleaved_f32" else "interleaved_f64";
    [i.engineId, format, i.ratePair, Decimal(i.fromRateHz), Decimal(i.toRateHz), Decimal(i.channels),
     Decimal(i.chunkFrames), i.algorithmId]
  }

  /** The key carries every field of the identity, each behind its own label and before the next. */
  lemma CaseKeyNames(i: MeasurementIdentity, k: nat)
    requires k < 8
    ensures CaseKey(i) == Labelled(KEY_LABELS, KeyValues(i), 8)
    ensures Contains(CaseKey(i), KEY_LABELS[k] + KeyValues(i)[k] + if k + 1 < 8 then KEY_LABELS[k + 1] else "")
  {
    hide Decimal, Contains;
    KeyIsLabelled(i);
    LabelledPiece(KEY_LABELS, KeyValues(i), 8, k);
  }

  lemma KeyIsLabelled(i: MeasurementIdentity)
    ensures CaseKey(i) == Labelled(KEY_LABELS, KeyValues(i), 8)
  {
    hide Decimal;
    var l, v := KEY_LABELS, KeyValues(i);
    assert Labelled(l, v, 1) == "engine=" + i.engineId;
    assert Labelled(l, v, 2) == Labelled(l, v, 1) + ";format=" + FormatName(i.sampleFormat);
    assert Labelled(l, v, 3) == Labelled(l, v, 2) + ";rate=" + i.ratePair;
    assert Labelled(l, v, 4) == Labelled(l, v, 3) + ";from=" + Decimal(i.fromRateHz);
    assert Labelled(l, v, 5) == Labelled(l, v, 4) + ";to=" + Decimal(i.toRateHz);
    assert Labelled(l, v, 6) == Labelled(l, v, 5) + ";channels=" + Decimal(i.channels);
    assert Labelled(l, v, 7) == Labelled(l, v, 6) + ";frames=" + Decimal(i.chunkFrames);
    assert Labelled(l, v, 8) == Labelled(l, v, 7) + ";algorithm=" + i.algorithmId;
  }
}
