/**
 * Histories of the registry: any sequence of factory calls, interleaved with
 * the state changes that holders of an instance make to it themselves
 * (commit, delete). Each factory call is one atomic step, as the
 * registry's lock makes it. The lemmas say what holds of every history.
 */
module RegistryHistory {
  import opened PolicyLifecycle

  datatype Call<I> =
    | GetPolicyConfiguration(contextId: Option<string>, create: bool, remove: bool, made: I)
    | InstanceTransition(key: string, to: State)  // commit() or delete() on the stored instance

  /** The identifier a call can affect. */
  predicate Names<I>(call: Call<I>, k: string)
  {
    match call
    case GetPolicyConfiguration(contextId, _, _, _) => contextId == Some(k)
    case InstanceTransition(key, _) => key == k
  }

  function Apply<I>(reg: Registry<I>, call: Call<I>): Registry<I>
  {
    match call
    case GetPolicyConfiguration(contextId, create, remove, made) =>
      Obtain(reg, contextId, create, remove, made).next
    case InstanceTransition(k, to) =>
      if k in reg then reg[k := Entry(reg[k].config, to)] else reg
  }

  function Run<I>(reg: Registry<I>, calls: seq<Call<I>>): Registry<I>
    decreases |calls|
  {
    if calls == [] then reg else Run(Apply(reg, calls[0]), calls[1..])
  }

  /** No history removes an identifier from the registry. */
  lemma {:induction false} RunNeverRemovesKeys<I>(reg: Registry<I>, calls: seq<Call<I>>)
    ensures reg.Keys <= Run(reg, calls).Keys
    decreases |calls|
  {
    if calls != [] {
      RunNeverRemovesKeys(Apply(reg, calls[0]), calls[1..]);
    }
  }

  /**
   * Once an identifier has an instance, every later registry holds that same
   * instance under it: no history swaps in a replacement.
   */
  lemma {:induction false} RunKeepsInstance<I>(reg: Registry<I>, calls: seq<Call<I>>, k: string)
    requires k in reg
    ensures k in Run(reg, calls) && Run(reg, calls)[k].config == reg[k].config
    decreases |calls|
  {
    if calls != [] {
      var after := Apply(reg, calls[0]);
      assert k in after && after[k].config == reg[k].config;
      RunKeepsInstance(after, calls[1..], k);
    }
  }

  /** A history whose calls all name other identifiers leaves this one as it was. */
  lemma {:induction false} RunOnlyTouchesNamedKeys<I>(reg: Registry<I>, calls: seq<Call<I>>, k: string)
    requires forall i | 0 <= i < |calls| :: !Names(calls[i], k)
    ensures k in Run(reg, calls) <==> k in reg
    ensures k in reg ==> Run(reg, calls)[k] == reg[k]
    decreases |calls|
  {
    if calls != [] {
      assert !Names(calls[0], k);
      forall i | 0 <= i < |calls[1..]| ensures !Names(calls[1..][i], k) {
        assert calls[1..][i] == calls[i + 1];
      }
      RunOnlyTouchesNamedKeys(Apply(reg, calls[0]), calls[1..], k);
    }
  }

  /**
   * Get-or-create for an identifier, then any history, then get-or-create for
   * it again: both calls return the same instance, whatever the flags.
   */
  lemma SameInstanceAcrossHistory<I>(reg: Registry<I>, id: string, remove1: bool, made1: I,
                                     calls: seq<Call<I>>, create2: bool, remove2: bool, made2: I)
    ensures var first := Obtain(reg, Some(id), true, remove1, made1);
            var second := Obtain(Run(first.next, calls), Some(id), create2, remove2, made2);
            first.result.Ok? && first.result.value.Some? && second.result == first.result
  {
    var first := Obtain(reg, Some(id), true, remove1, made1);
    RunKeepsInstance(first.next, calls, id);
  }

  /**
   * A history in which every instance handed to get-or-create (what the
   * constructor would yield) is not already stored when the call is made.
   */
  ghost predicate FreshHistory<I>(reg: Registry<I>, calls: seq<Call<I>>)
    decreases |calls|
  {
    calls == [] ||
    ((calls[0].GetPolicyConfiguration? ==> !Stored(reg, calls[0].made)) &&
     FreshHistory(Apply(reg, calls[0]), calls[1..]))
  }

  /** Along such a history no two identifiers ever share an instance. */
  lemma {:induction false} RunKeepsInjective<I>(reg: Registry<I>, calls: seq<Call<I>>)
    requires Injective(reg)
    requires FreshHistory(reg, calls)
    ensures Injective(Run(reg, calls))
    decreases |calls|
  {
    if calls != [] {
      match calls[0] {
        case GetPolicyConfiguration(contextId, create, remove, made) =>
          ObtainKeepsInjective(reg, contextId, create, remove, made);
        case InstanceTransition(k, to) =>
          var after := Apply(reg, calls[0]);
          assert forall j | j in after :: after[j].config == reg[j].config;
      }
      RunKeepsInjective(Apply(reg, calls[0]), calls[1..]);
    }
  }
}
