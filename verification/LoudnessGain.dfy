/** The linear gain of a loudness record and its one-entry cache. */
module LoudnessGain {
  import opened Outcomes

  /** A loudness record as far as its gain is concerned; `power` raises ten to an exponent. */
  class LoudnessRecord {
    const power: real -> real
    var integratedLufs: real
    var cachedTarget: Option<real>
    var cachedGain: real

    constructor (power: real -> real, integratedLufs: real)
      ensures this.power == power && this.integratedLufs == integratedLufs && CacheTrue()
    {
      this.power := power;
      this.integratedLufs := integratedLufs;
      cachedTarget := None;
      cachedGain := 1.0;
    }

    function Gain(target: real): real
      reads this`integratedLufs
    {
      power((target - integratedLufs) / 20.0)
    }

    /** A cached gain is the gain for the cached target. */
    predicate CacheTrue()
      reads this
    {
      cachedTarget.Some? ==> cachedGain == Gain(cachedTarget.value)
    }

    method GainLinear(target: real) returns (gain: real)
      modifies this`cachedTarget, this`cachedGain
      ensures gain == if old(cachedTarget) == Some(target) then old(cachedGain) else Gain(target)
      ensures gain == Gain(target) <==> (old(cachedTarget) == Some(target) ==> old(CacheTrue()))
      ensures old(CacheTrue()) ==> CacheTrue()
      ensures cachedTarget == Some(target) && cachedGain == gain
    {
      if cachedTarget == Some(target) {
        return cachedGain;
      }
      gain := Gain(target);
      cachedTarget := Some(target);
      cachedGain := gain;
    }
  }

  /** Over any run of requests every answer is the gain for its target, whatever was asked before. */
  method GainsOf(record: LoudnessRecord, targets: seq<real>) returns (gains: seq<real>)
    requires record.CacheTrue()
    modifies record`cachedTarget, record`cachedGain
    ensures record.CacheTrue()
    ensures |gains| == |targets| && forall k :: 0 <= k < |targets| ==> gains[k] == record.Gain(targets[k])
  {
    gains := [];
    for i := 0 to |targets|
      invariant record.CacheTrue() && |gains| == i
      invariant forall k :: 0 <= k < i ==> gains[k] == record.Gain(targets[k])
    {
      var gain := record.GainLinear(targets[i]);
      gains := gains + [gain];
    }
  }

  /** Assigning a new loudness leaves a stale answer for the cached target exactly when the gain changes. */
  method GainAfterReassignment(record: LoudnessRecord, lufs: real, target: real) returns (gain: real)
    requires record.CacheTrue()
    modifies record
    ensures record.integratedLufs == lufs
    ensures gain == if old(record.cachedTarget) == Some(target) then old(record.Gain(target)) else record.Gain(target)
    ensures gain == record.Gain(target)
      <==> (old(record.cachedTarget) == Some(target) ==> old(record.Gain(target)) == record.Gain(target))
  {
    record.integratedLufs := lufs;
    gain := record.GainLinear(target);
  }

  /** Ask for a gain, change the loudness, ask again: the second answer is still the first, and no longer the gain. */
  method StaleGain() returns (record: LoudnessRecord, gain: real)
    ensures fresh(record) && record.integratedLufs == 20.0
    ensures gain == 0.0 && record.Gain(0.0) == -1.0
  {
    record := new LoudnessRecord((exponent: real) => exponent, 0.0);
    gain := record.GainLinear(0.0);
    gain := GainAfterReassignment(record, 20.0, 0.0);
  }
}
