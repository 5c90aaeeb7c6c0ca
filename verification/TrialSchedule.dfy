/** The scheduled collector: alternating engine order, per-engine failure, and why engines do not disturb each other. */
module TrialSchedule {
  import opened Outcomes
  import opened Trials

  /** A trial measurement or its error, for an engine index and a trial number. */
  type Measure = (nat, nat) -> Result<TrialRecord, string>

  datatype Failure = Failure(trial: nat, error: TrialError)

  /** One engine's slots and its failure, if it has failed. */
  datatype Progress = Progress(slots: Slots, failure: Option<Failure>)

  // ---------- one engine on its own ----------

  /** What one engine's measurement of one trial does to its slots. */
  function Attempt(identity: MeasurementIdentity, slots: Slots, outcome: Result<TrialRecord, string>, trial: nat):
    Result<Slots, TrialError>
  {
    match outcome
    case Err(message) => Err(MeasureFailed(message))
    case Ok(record) => if record.trialIndex != trial then Err(WrongTrialIndex) else Place(identity, slots, record)
  }

  /** Engine i run alone for the first n trials. */
  function Alone(measure: Measure, i: nat, identity: MeasurementIdentity, slots: Slots, n: nat): Progress {
    if n == 0 then Progress(slots, None)
    else
      var before := Alone(measure, i, identity, slots, n - 1);
      if before.failure.Some? then before
      else match Attempt(identity, before.slots, measure(i, n - 1), n - 1)
        case Ok(placed) => Progress(placed, None)
        case Err(error) => Progress(before.slots, Some(Failure(n - 1, error)))
  }

  /** The measurement of trial k is a record of trial k by the expected engine. */
  predicate Sound(measure: Measure, i: nat, identity: MeasurementIdentity, k: nat) {
    var outcome := measure(i, k);
    outcome.Ok? && outcome.value.trialIndex == k && outcome.value.identity == identity
  }

  /** How far an engine has got: the number of trials it holds. */
  ghost function Done(p: Progress, n: nat): nat {
    if p.failure.Some? then p.failure.value.trial else n
  }

  /** The slots hold exactly the sound measurements of the first `done` trials, each in its own slot. */
  ghost predicate HoldsExactly(measure: Measure, i: nat, identity: MeasurementIdentity, slots: Slots, done: nat) {
    && done <= |slots|
    && (forall k: nat :: k < done ==> Sound(measure, i, identity, k) && slots[k] == Some(measure(i, k).value))
    && (forall k :: done <= k < |slots| ==> slots[k].None?)
  }

  /** From fresh slots, an engine is complete up to its first unsound measurement and stops there. */
  lemma {:induction false} AloneFromFresh(measure: Measure, i: nat, identity: MeasurementIdentity, trials: nat, n: nat)
    requires n <= trials
    ensures var p := Alone(measure, i, identity, EmptySlots(trials), n);
      && |p.slots| == trials
      && HoldsExactly(measure, i, identity, p.slots, Done(p, n))
      && (p.failure.Some? ==> p.failure.value.trial < n && !Sound(measure, i, identity, p.failure.value.trial))
  {
    if n > 0 {
      AloneFromFresh(measure, i, identity, trials, n - 1);
      var before := Alone(measure, i, identity, EmptySlots(trials), n - 1);
      if before.failure.None? {
        assert before.slots[n - 1].None?;
      }
    }
  }

  /** An engine fails exactly when one of its measurements is unsound. */
  lemma FailsIffUnsound(measure: Measure, i: nat, identity: MeasurementIdentity, trials: nat)
    ensures Alone(measure, i, identity, EmptySlots(trials), trials).failure.None?
       <==> forall k: nat :: k < trials ==> Sound(measure, i, identity, k)
  {
    AloneFromFresh(measure, i, identity, trials, trials);
  }

  // ---------- the alternating order ----------

  function Reverse(s: seq<nat>): (r: seq<nat>)
    ensures |r| == |s| && forall k :: 0 <= k < |s| ==> r[k] == s[|s| - 1 - k]
  {
    if s == [] then [] else Reverse(s[1..]) + [s[0]]
  }

  /** Ascending engine order on even trials, descending on odd ones. */
  function Order(indices: seq<nat>, trial: nat): (order: seq<nat>)
    ensures |order| == |indices|
  {
    if trial % 2 == 0 then indices else Reverse(indices)
  }

  ghost predicate Ascending(s: seq<nat>) {
    forall a, b :: 0 <= a < b < |s| ==> s[a] < s[b]
  }

  lemma OrderKeeps(indices: seq<nat>, trial: nat)
    requires Ascending(indices)
    ensures forall i :: i in Order(indices, trial) <==> i in indices
    ensures forall a, b :: 0 <= a < b < |indices| ==> Order(indices, trial)[a] != Order(indices, trial)[b]
  {
    var order := Order(indices, trial);
    if trial % 2 != 0 {
      forall i | i in indices ensures i in order {
        var k :| 0 <= k < |indices| && indices[k] == i;
        assert order[|indices| - 1 - k] == i;
      }
      forall i | i in order ensures i in indices {
        var k :| 0 <= k < |indices| && order[k] == i;
        assert indices[|indices| - 1 - k] == i;
      }
    }
  }

  predicate IsLeast(m: nat, s: set<nat>) {
    m in s && forall x :: x in s ==> m <= x
  }

  lemma LeastExists(s: set<nat>)
    requires s != {}
    ensures exists m :: IsLeast(m, s)
  {
    var candidate :| candidate in s;
    var rest := s - {candidate};
    assert forall x :: x in s ==> x == candidate || x in rest;
    if rest == {} {
      assert IsLeast(candidate, s);
    } else {
      LeastExists(rest);
      var other :| IsLeast(other, rest);
      assert IsLeast(if candidate <= other then candidate else other, s);
    }
  }

  function Smallest(s: set<nat>): (m: nat)
    requires s != {}
    ensures IsLeast(m, s)
  {
    LeastExists(s);
    var m :| IsLeast(m, s);
    m
  }

  /** The keys of an ordered map, in its iteration order. */
  function SortedKeys(s: set<nat>): (keys: seq<nat>)
    ensures Ascending(keys)
    ensures forall i :: i in keys <==> i in s
  {
    if s == {} then []
    else
      var m := Smallest(s);
      [m] + SortedKeys(s - {m})
  }

  // ---------- the collector ----------

  /** What engine i has collected after the first n trials, starting from the given slots. */
  ghost function After(measure: Measure, identities: map<nat, MeasurementIdentity>, start: map<nat, Slots>, i: nat,
      n: nat): Progress
    requires i in identities && i in start
  {
    Alone(measure, i, identities[i], start[i], n)
  }

  /** The engines of an order that have not failed before this trial, paired with the trial. */
  ghost function CallsIn(measure: Measure, identities: map<nat, MeasurementIdentity>, start: map<nat, Slots>,
      order: seq<nat>, trial: nat): seq<(nat, nat)>
    requires forall i :: i in order ==> i in identities && i in start
  {
    if order == [] then []
    else
      var rest, last := order[..|order| - 1], order[|order| - 1];
      CallsIn(measure, identities, start, rest, trial)
      + (if After(measure, identities, start, last, trial).failure.None? then [(last, trial)] else [])
  }

  /** Every call of the measurement over the first n trials, in order. */
  ghost function Calls(measure: Measure, identities: map<nat, MeasurementIdentity>, start: map<nat, Slots>,
      indices: seq<nat>, n: nat): seq<(nat, nat)>
    requires forall i :: i in indices ==> i in identities && i in start
    requires Ascending(indices)
  {
    if n == 0 then []
    else
      OrderKeeps(indices, n - 1);
      Calls(measure, identities, start, indices, n - 1) + CallsIn(measure, identities, start, Order(indices, n - 1),
        n - 1)
  }

  lemma CallsInStep(measure: Measure, identities: map<nat, MeasurementIdentity>, start: map<nat, Slots>,
      order: seq<nat>, n: nat, trial: nat)
    requires n < |order| && forall i :: i in order ==> i in identities && i in start
    ensures CallsIn(measure, identities, start, order[..n + 1], trial)
         == CallsIn(measure, identities, start, order[..n], trial)
          + (if After(measure, identities, start, order[n], trial).failure.None? then [(order[n], trial)] else [])
  {
    assert order[..n + 1][..n] == order[..n];
  }

  lemma StaysFailed(measure: Measure, identities: map<nat, MeasurementIdentity>, start: map<nat, Slots>, i: nat, n: nat)
    requires i in identities && i in start
    requires After(measure, identities, start, i, n).failure.Some?
    ensures After(measure, identities, start, i, n + 1) == After(measure, identities, start, i, n)
  {
  }

  /** What the accumulators and failures say about engine i. */
  ghost function Seen(accumulators: map<nat, CaseAccumulator>, failures: map<nat, Failure>, i: nat): Progress
    requires i in accumulators
    reads accumulators[i]
  {
    Progress(accumulators[i].records, if i in failures then Some(failures[i]) else None)
  }

  ghost function Identities(accumulators: map<nat, CaseAccumulator>): map<nat, MeasurementIdentity> {
    map i | i in accumulators :: accumulators[i].identity
  }

  ghost function Records(accumulators: map<nat, CaseAccumulator>): map<nat, Slots>
    reads accumulators.Values
  {
    map i | i in accumulators :: accumulators[i].records
  }

  /** Distinct engines have distinct accumulators. */
  ghost predicate Separate(accumulators: map<nat, CaseAccumulator>) {
    forall i, j :: i in accumulators && j in accumulators && i != j ==> accumulators[i] != accumulators[j]
  }

  /** One measurement of one engine that has not failed. */
  method Run(accumulators: map<nat, CaseAccumulator>, failures: map<nat, Failure>, measure: Measure, i: nat,
      trial: nat, ghost identities: map<nat, MeasurementIdentity>, ghost start: map<nat, Slots>)
    returns (failures': map<nat, Failure>)
    requires i in accumulators && i !in failures && i in start && i in identities
      && accumulators[i].identity == identities[i]
    requires Seen(accumulators, failures, i) == After(measure, identities, start, i, trial)
    modifies accumulators[i]
    ensures failures'.Keys <= failures.Keys + {i}
    ensures forall j :: j in failures ==> j in failures' && failures'[j] == failures[j]
    ensures Seen(accumulators, failures', i) == After(measure, identities, start, i, trial + 1)
  {
    var outcome := measure(i, trial);
    var error: Option<TrialError> := None;
    if outcome.Err? {
      error := Some(MeasureFailed(outcome.error));
    } else if outcome.value.trialIndex != trial {
      error := Some(WrongTrialIndex);
    } else {
      var pushed := accumulators[i].Push(outcome.value);
      if pushed.Err? {
        error := Some(pushed.error);
      }
    }
    failures' := if error.Some? then failures[i := Failure(trial, error.value)] else failures;
  }

  /** Runs every engine through every trial; a failed engine is skipped from then on. */
  method CollectScheduledTrials(accumulators: map<nat, CaseAccumulator>, trials: nat, measure: Measure)
    returns (failures: map<nat, Failure>, ghost trace: seq<(nat, nat)>)
    requires Separate(accumulators)
    modifies accumulators.Values
    ensures failures.Keys <= accumulators.Keys
    ensures forall i :: i in accumulators ==>
      Seen(accumulators, failures, i) == After(measure, Identities(accumulators), old(Records(accumulators)), i, trials)
    ensures trace == Calls(measure, Identities(accumulators), old(Records(accumulators)),
      SortedKeys(accumulators.Keys), trials)
  {
    var indices := SortedKeys(accumulators.Keys);
    NothingYet(accumulators, measure, indices);
    failures, trace := RunTrials(accumulators, indices, trials, measure, Identities(accumulators),
      Records(accumulators));
  }

  /** The loop over trials. */
  method RunTrials(accumulators: map<nat, CaseAccumulator>, indices: seq<nat>, trials: nat, measure: Measure,
                   ghost identities: map<nat, MeasurementIdentity>, ghost start: map<nat, Slots>)
    returns (failures: map<nat, Failure>, ghost trace: seq<(nat, nat)>)
    requires Separate(accumulators) && start.Keys == accumulators.Keys == identities.Keys
    requires Ascending(indices) && forall i :: i in indices <==> i in accumulators
    requires forall i :: i in accumulators ==> accumulators[i].identity == identities[i]
    requires forall i :: i in accumulators ==> Seen(accumulators, map[], i) == After(measure, identities, start, i, 0)
    modifies accumulators.Values
    ensures failures.Keys <= accumulators.Keys
    ensures forall i :: i in accumulators ==>
      Seen(accumulators, failures, i) == After(measure, identities, start, i, trials)
    ensures trace == Calls(measure, identities, start, indices, trials)
  {
    failures, trace := map[], [];
    hide Alone, After, Seen, CallsIn, SortedKeys, Order, Reverse;
    for trial := 0 to trials
      invariant failures.Keys <= accumulators.Keys
      invariant forall i :: i in accumulators ==>
        Seen(accumulators, failures, i) == After(measure, identities, start, i, trial)
      invariant trace == Calls(measure, identities, start, indices, trial)
    {
      CallsStep(measure, identities, start, indices, trial);
      OrderKeeps(indices, trial);
      var order := Order(indices, trial);
      failures, trace := RunTrial(accumulators, order, failures, trace, measure, trial, identities, start);
      assert forall i :: i in accumulators ==> i in order;
    }
  }

  lemma NothingYet(accumulators: map<nat, CaseAccumulator>, measure: Measure, indices: seq<nat>)
    requires Ascending(indices) && forall i :: i in indices <==> i in accumulators
    ensures var identities, start := Identities(accumulators), Records(accumulators);
      && Calls(measure, identities, start, indices, 0) == []
      && forall i :: i in accumulators ==> Seen(accumulators, map[], i) == After(measure, identities, start, i, 0)
  {
  }

  lemma CallsStep(measure: Measure, identities: map<nat, MeasurementIdentity>, start: map<nat, Slots>,
      indices: seq<nat>, n: nat)
    requires Ascending(indices) && forall i :: i in indices ==> i in identities && i in start
    ensures forall i :: i in Order(indices, n) ==> i in indices
    ensures Calls(measure, identities, start, indices, n + 1)
         == Calls(measure, identities, start, indices, n) + CallsIn(measure, identities, start, Order(indices, n), n)
  {
    OrderKeeps(indices, n);
  }

  /** One pass over the engines in the order of the trial. */
  method RunTrial(accumulators: map<nat, CaseAccumulator>, order: seq<nat>, failures: map<nat, Failure>,
      ghost trace: seq<(nat, nat)>, measure: Measure, trial: nat, ghost identities: map<nat, MeasurementIdentity>,
      ghost start: map<nat, Slots>)
    returns (failures': map<nat, Failure>, ghost trace': seq<(nat, nat)>)
    requires Separate(accumulators) && start.Keys == accumulators.Keys == identities.Keys
    requires forall i :: i in accumulators ==> accumulators[i].identity == identities[i]
    requires failures.Keys <= accumulators.Keys
    requires forall k :: 0 <= k < |order| ==> order[k] in accumulators
    requires forall a, b :: 0 <= a < b < |order| ==> order[a] != order[b]
    requires forall k :: 0 <= k < |order| ==>
      Seen(accumulators, failures, order[k]) == After(measure, identities, start, order[k], trial)
    modifies accumulators.Values
    ensures failures'.Keys <= accumulators.Keys
    ensures forall k :: 0 <= k < |order| ==>
      Seen(accumulators, failures', order[k]) == After(measure, identities, start, order[k], trial + 1)
    ensures trace' == trace + CallsIn(measure, identities, start, order, trial)
  {
    hide Alone, CallsIn, After, Seen;
    failures', trace' := failures, trace;
    EmptyCalls(measure, identities, start, trial);
    for n := 0 to |order|
      invariant failures'.Keys <= accumulators.Keys
      invariant forall k :: 0 <= k < n ==>
        Seen(accumulators, failures', order[k]) == After(measure, identities, start, order[k], trial + 1)
      invariant forall k :: n <= k < |order| ==>
        Seen(accumulators, failures', order[k]) == After(measure, identities, start, order[k], trial)
      invariant trace' == trace + CallsIn(measure, identities, start, order[..n], trial)
    {
      CallsInStep(measure, identities, start, order, n, trial);
      failures', trace' := Turn(accumulators, order[n], failures', trace', measure, trial, identities, start);
    }
    assert order[..|order|] == order;
  }

  /** An engine's turn: it runs unless it has failed, and nobody else is touched. */
  method Turn(accumulators: map<nat, CaseAccumulator>, i: nat, failures: map<nat, Failure>,
      ghost trace: seq<(nat, nat)>, measure: Measure, trial: nat, ghost identities: map<nat, MeasurementIdentity>,
      ghost start: map<nat, Slots>)
    returns (failures': map<nat, Failure>, ghost trace': seq<(nat, nat)>)
    requires Separate(accumulators) && i in accumulators && i in start && i in identities
    requires accumulators[i].identity == identities[i]
    requires Seen(accumulators, failures, i) == After(measure, identities, start, i, trial)
    modifies accumulators[i]
    ensures failures'.Keys <= failures.Keys + {i}
    ensures Seen(accumulators, failures', i) == After(measure, identities, start, i, trial + 1)
    ensures forall j :: j in accumulators && j != i ==>
      Seen(accumulators, failures', j) == old(Seen(accumulators, failures, j))
    ensures trace' == trace + (if After(measure, identities, start, i, trial).failure.None? then [(i, trial)] else [])
  {
    hide Alone, After;
    if i !in failures {
      failures' := Run(accumulators, failures, measure, i, trial, identities, start);
      trace' := trace + [(i, trial)];
    } else {
      StaysFailed(measure, identities, start, i, trial);
      failures', trace' := failures, trace;
    }
  }

  lemma EmptyCalls(measure: Measure, identities: map<nat, MeasurementIdentity>, start: map<nat, Slots>, trial: nat)
    ensures CallsIn(measure, identities, start, [], trial) == []
  {
  }

  // ---------- what the trace of calls shows ----------

  lemma {:induction false} FailureIsFinal(measure: Measure, identities: map<nat, MeasurementIdentity>,
      start: map<nat, Slots>, i: nat, k: nat, n: nat)
    requires i in identities && i in start && k <= n
    ensures var p := After(measure, identities, start, i, n).failure;
      After(measure, identities, start, i, k).failure.None? <==> (p.None? || k <= p.value.trial)
    ensures var p := After(measure, identities, start, i, n).failure; p.Some? ==> p.value.trial < n
  {
    if n > 0 {
      if k < n {
        FailureIsFinal(measure, identities, start, i, k, n - 1);
      } else {
        FailureIsFinal(measure, identities, start, i, k - 1, n - 1);
      }
    }
  }

  lemma {:induction false} CalledIn(measure: Measure, identities: map<nat, MeasurementIdentity>,
      start: map<nat, Slots>, order: seq<nat>, trial: nat, i: nat, k: nat)
    requires forall j :: j in order ==> j in identities && j in start
    ensures (i, k) in CallsIn(measure, identities, start, order, trial)
       <==> k == trial && i in order && After(measure, identities, start, i, trial).failure.None?
  {
    hide Alone, After;
    if order != [] {
      CalledIn(measure, identities, start, order[..|order| - 1], trial, i, k);
      assert order == order[..|order| - 1] + [order[|order| - 1]];
    }
  }

  /** An engine is measured on every trial up to and including its failure, and never again. */
  lemma {:induction false} MeasuredUntilFailure(measure: Measure, identities: map<nat, MeasurementIdentity>,
      start: map<nat, Slots>, indices: seq<nat>, n: nat, i: nat, k: nat)
    requires Ascending(indices) && forall j :: j in indices ==> j in identities && j in start
    requires i in indices
    ensures var p := After(measure, identities, start, i, n).failure;
      (i, k) in Calls(measure, identities, start, indices, n) <==> k < n && (p.None? || k <= p.value.trial)
  {
    hide Alone, After, CallsIn, Order;
    if n > 0 {
      OrderKeeps(indices, n - 1);
      CallsStep(measure, identities, start, indices, n - 1);
      MeasuredUntilFailure(measure, identities, start, indices, n - 1, i, k);
      CalledIn(measure, identities, start, Order(indices, n - 1), n - 1, i, k);
      FailureIsFinal(measure, identities, start, i, n - 1, n);
      FailureIsFinal(measure, identities, start, i, n - 1, n - 1);
      if k < n {
        FailureIsFinal(measure, identities, start, i, k, n);
        FailureIsFinal(measure, identities, start, i, k, n - 1);
      }
    }
  }

  /** The whole order, paired with the trial. */
  ghost function Pairs(order: seq<nat>, trial: nat): (r: seq<(nat, nat)>)
    ensures |r| == |order| && forall k :: 0 <= k < |order| ==> r[k] == (order[k], trial)
  {
    seq(|order|, k requires 0 <= k < |order| => (order[k], trial))
  }

  /** Each even trial ascending, each odd trial descending. */
  ghost function FullSchedule(indices: seq<nat>, n: nat): seq<(nat, nat)> {
    if n == 0 then [] else FullSchedule(indices, n - 1) + Pairs(Order(indices, n - 1), n - 1)
  }

  lemma {:induction false} FullPass(measure: Measure, identities: map<nat, MeasurementIdentity>,
      start: map<nat, Slots>, order: seq<nat>, trial: nat)
    requires forall j :: j in order ==> j in identities && j in start
    requires forall j :: j in order ==> After(measure, identities, start, j, trial).failure.None?
    ensures CallsIn(measure, identities, start, order, trial) == Pairs(order, trial)
  {
    hide Alone, After;
    if order != [] {
      FullPass(measure, identities, start, order[..|order| - 1], trial);
    }
  }

  /** Without failures the calls are exactly the alternating schedule. */
  lemma {:induction false} UnfailedSchedule(measure: Measure, identities: map<nat, MeasurementIdentity>,
      start: map<nat, Slots>, indices: seq<nat>, n: nat)
    requires Ascending(indices) && forall j :: j in indices ==> j in identities && j in start
    requires forall j :: j in indices ==> After(measure, identities, start, j, n).failure.None?
    ensures Calls(measure, identities, start, indices, n) == FullSchedule(indices, n)
  {
    hide Alone, After, CallsIn, Order, Pairs;
    if n > 0 {
      forall j | j in indices ensures After(measure, identities, start, j, n - 1).failure.None? {
        FailureIsFinal(measure, identities, start, j, n - 1, n);
      }
      UnfailedSchedule(measure, identities, start, indices, n - 1);
      CallsStep(measure, identities, start, indices, n - 1);
      FullPass(measure, identities, start, Order(indices, n - 1), n - 1);
    }
  }

  /** Where the p-th engine stands in the order of a trial. */
  function Position(engines: nat, p: nat, trial: nat): nat
    requires p < engines
  {
    if trial % 2 == 0 then p else engines - 1 - p
  }

  function TotalPosition(engines: nat, p: nat, trials: nat): nat
    requires p < engines
  {
    if trials == 0 then 0 else TotalPosition(engines, p, trials - 1) + Position(engines, p, trials - 1)
  }

  lemma PositionOccupied(indices: seq<nat>, p: nat, trial: nat)
    requires p < |indices|
    ensures Order(indices, trial)[Position(|indices|, p, trial)] == indices[p]
  {
  }

  lemma PairOfTrials(n: nat, p: nat, even: nat)
    requires p < n && even % 2 == 0
    ensures TotalPosition(n, p, even + 2) == TotalPosition(n, p, even) + (n - 1)
  {
    assert TotalPosition(n, p, even + 1) == TotalPosition(n, p, even) + p;
    assert (even + 1) % 2 == 1;
    assert TotalPosition(n, p, even + 2) == TotalPosition(n, p, even + 1) + (n - 1 - p);
  }

  /** Over any even number of trials every engine waits behind the same number of others. */
  lemma {:induction false} FairOrder(n: nat, p: nat, q: nat, half: nat)
    requires p < n && q < n
    ensures TotalPosition(n, p, 2 * half) == TotalPosition(n, q, 2 * half)
  {
    if half > 0 {
      FairOrder(n, p, q, half - 1);
      PairOfTrials(n, p, 2 * (half - 1));
      PairOfTrials(n, q, 2 * (half - 1));
    }
  }
}
