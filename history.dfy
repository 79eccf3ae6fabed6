/** Runs of several calls in a row: the counter only grows, the invariant
    holds throughout, and the ids handed out by adds strictly increase and
    are never reused, even after deletes. */
module RentalHistory {
  import opened RentalTypes
  import opened RentalStore

  /** One call of an entry point, with its arguments. */
  datatype Call =
    | GetCall(id: U64)
    | AddCall(payload: BasketRentalPayload)
    | UpdateCall(id: U64, payload: BasketRentalPayload)
    | DeleteCall(id: U64)
    | ShowListCall

  /** The state after one call. Only an add moves the counter. */
  function Step(s: State, c: Call): (s': State)
    requires c.AddCall? ==> s.counter < U64_MAX
    ensures s'.counter == s.counter + (if c.AddCall? then 1 else 0)
  {
    match c
    case GetCall(_) => s
    case AddCall(p) => Add(s, p).0
    case UpdateCall(id, p) => Update(s, id, p).0
    case DeleteCall(id) => Delete(s, id).0
    case ShowListCall => s
  }

  lemma StepPreservesValid(s: State, c: Call)
    requires Valid(s)
    requires c.AddCall? ==> s.counter < U64_MAX
    ensures Valid(Step(s, c))
  {
  }

  /** How many adds a run holds. */
  function AddCount(cs: seq<Call>): nat
  {
    if cs == [] then 0 else (if cs[0].AddCall? then 1 else 0) + AddCount(cs[1..])
  }

  /** The counter does not overflow during the run. */
  predicate Runnable(s: State, cs: seq<Call>)
  {
    s.counter + AddCount(cs) <= U64_MAX
  }

  /** The state after a run of calls. */
  function Run(s: State, cs: seq<Call>): State
    requires Runnable(s, cs)
    decreases |cs|
  {
    if cs == [] then s else Run(Step(s, cs[0]), cs[1..])
  }

  /** The ids that the adds of a run return, in order. */
  function IssuedIds(s: State, cs: seq<Call>): seq<U64>
    requires Runnable(s, cs)
    decreases |cs|
  {
    if cs == [] then []
    else
      var first := if cs[0].AddCall? then [Add(s, cs[0].payload).1.id] else [];
      first + IssuedIds(Step(s, cs[0]), cs[1..])
  }

  /** Over a run the counter grows by exactly the number of adds. */
  lemma {:induction false} RunCounter(s: State, cs: seq<Call>)
    requires Runnable(s, cs)
    ensures Run(s, cs).counter == s.counter + AddCount(cs)
    decreases |cs|
  {
    if cs != [] {
      RunCounter(Step(s, cs[0]), cs[1..]);
    }
  }

  /** Every run keeps the invariant. */
  lemma {:induction false} RunPreservesValid(s: State, cs: seq<Call>)
    requires Valid(s)
    requires Runnable(s, cs)
    ensures Valid(Run(s, cs))
    decreases |cs|
  {
    if cs != [] {
      StepPreservesValid(s, cs[0]);
      RunPreservesValid(Step(s, cs[0]), cs[1..]);
    }
  }

  /** The ids a run hands out strictly increase, one per add, and all lie
      between the counter before and the counter after the run. */
  lemma {:induction false} IssuedIdsIncrease(s: State, cs: seq<Call>)
    requires Runnable(s, cs)
    ensures var ids := IssuedIds(s, cs);
      && |ids| == AddCount(cs)
      && (forall i, j :: 0 <= i < j < |ids| ==> ids[i] < ids[j])
      && (forall i :: 0 <= i < |ids| ==> s.counter <= ids[i] < Run(s, cs).counter)
    decreases |cs|
  {
    if cs != [] {
      var s1 := Step(s, cs[0]);
      IssuedIdsIncrease(s1, cs[1..]);
      RunCounter(s1, cs[1..]);
      var rest := IssuedIds(s1, cs[1..]);
      assert Run(s, cs) == Run(s1, cs[1..]);
      if cs[0].AddCall? {
        assert IssuedIds(s, cs) == [s.counter] + rest;
      } else {
        assert IssuedIds(s, cs) == rest;
      }
    }
  }

  /** After any run, an add gets an id that no earlier add of the run
      returned and that was not stored before the run: ids are never reused,
      deletes included, and an add never overwrites a record. */
  lemma {:induction false} IdsNeverReused(s: State, cs: seq<Call>, p: BasketRentalPayload)
    requires Valid(s)
    requires Runnable(s, cs)
    requires Run(s, cs).counter < U64_MAX
    ensures var id := Add(Run(s, cs), p).1.id;
      && id !in IssuedIds(s, cs)
      && id !in s.store
      && id !in Run(s, cs).store
  {
    RunPreservesValid(s, cs);
    RunCounter(s, cs);
    IssuedIdsIncrease(s, cs);
  }
}
