/** Identified trial records and the accumulator that gathers one engine's trials. */
module Trials {
  import opened Outcomes
  import opened Vectors

  const CHUNK_FRAMES := 512
  const WARMUP_BUFFERS := 32
  const USIZE_MAX := 0xFFFF_FFFF_FFFF_FFFF

  /** A machine-sized count. */
  type Usize = n: int | 0 <= n <= USIZE_MAX

  function CheckedAdd(a: Usize, b: Usize): Option<Usize> {
    if a + b <= USIZE_MAX then Some(a + b) else None
  }

  datatype SampleFormat = InterleavedF32 | InterleavedF64

  /** An engine's published identity; `details` stands for the descriptive fields that are only copied and compared. */
  datatype EngineIdentity = EngineIdentity(engineId: string, algorithmId: string, sampleFormat: SampleFormat,
    details: string)

  datatype RatePair = RatePair(id: string, fromHz: nat, toHz: nat, channels: nat)

  datatype MeasurementIdentity = MeasurementIdentity(
    engineId: string, algorithmId: string, sampleFormat: SampleFormat, ratePair: string,
    fromRateHz: nat, toRateHz: nat, channels: nat, chunkFrames: nat, outputCapacityFrames: nat)

  function IdentityOf(engine: EngineIdentity, rate: RatePair, capacity: nat): MeasurementIdentity {
    MeasurementIdentity(engine.engineId, engine.algorithmId, engine.sampleFormat, rate.id,
                        rate.fromHz, rate.toHz, rate.channels, CHUNK_FRAMES, capacity)
  }

  /** How many nanoseconds a buffer of frames lasts at a rate. */
  function BufferDuration(frames: nat, fromHz: nat): real
    requires fromHz > 0
  {
    frames as real / fromHz as real * 1000000000.0
  }

  /** The duration times the rate is the frames' share of a second, in nanoseconds. */
  lemma DurationTimesRate(frames: nat, fromHz: nat)
    requires fromHz > 0
    ensures Mul(BufferDuration(frames, fromHz), fromHz as real) == frames as real * 1000000000.0
    ensures frames > 0 ==> BufferDuration(frames, fromHz) > 0.0
  {
    var q, d := frames as real / fromHz as real, fromHz as real;
    assert q * d == frames as real;
    PositiveFactor(q, d);
  }

  datatype TrialMeasurement = TrialMeasurement(
    setupNs: real, steadyNsPerInputSample: real, steadyNsPerInputBuffer: real,
    steadyCyclesPerInputSample: Option<real>, steadyCyclesPerInputBuffer: Option<real>,
    resetNs: real, drainNs: real,
    warmupConsumedFrames: Usize, timedConsumedFrames: Usize, expectedCompleteOutputFrames: Usize,
    warmupOutputFrames: Usize, steadyOutputFrames: Usize, drainFrames: Usize,
    actualCompleteOutputFrames: Usize, drainTerminal: bool)

  datatype TrialRecord = TrialRecord(identity: MeasurementIdentity, trialIndex: nat, measurement: TrialMeasurement)

  /** Why a trial was not accepted. */
  datatype TrialError =
    | IdentityMismatch
    | OutsideSchedule
    | DuplicateTrial
    | WrongTrialIndex
    | MeasureFailed(message: string)

  type Slots = seq<Option<TrialRecord>>

  /** The slots after offering a record: it must carry the identity and name an empty slot. */
  function Place(identity: MeasurementIdentity, slots: Slots, record: TrialRecord): Result<Slots, TrialError> {
    if record.identity != identity then Err(IdentityMismatch)
    else if record.trialIndex >= |slots| then Err(OutsideSchedule)
    else if slots[record.trialIndex].Some? then Err(DuplicateTrial)
    else Ok(slots[record.trialIndex := Some(record)])
  }

  function EmptySlots(trials: nat): Slots {
    seq(trials, _ => None)
  }

  /** Gathers one engine's records, each into the slot its trial index names. */
  class CaseAccumulator {
    const engine: EngineIdentity
    const identity: MeasurementIdentity
    var records: Slots

    constructor (engine: EngineIdentity, rate: RatePair, capacity: nat, trials: nat)
      ensures this.engine == engine
      ensures identity == IdentityOf(engine, rate, capacity)
      ensures records == EmptySlots(trials)
    {
      this.engine := engine;
      identity := IdentityOf(engine, rate, capacity);
      records := EmptySlots(trials);
    }

    method Push(record: TrialRecord) returns (r: Result<(), TrialError>)
      modifies this
      ensures match Place(identity, old(records), record)
              case Ok(slots) => r == Ok(()) && records == slots
              case Err(error) => r == Err(error) && records == old(records)
    {
      if record.identity != identity {
        return Err(IdentityMismatch);
      }
      var index := record.trialIndex;
      if index >= |records| {
        return Err(OutsideSchedule);
      }
      if records[index].Some? {
        return Err(DuplicateTrial);
      }
      records := records[index := Some(record)];
      return Ok(());
    }
  }
}
