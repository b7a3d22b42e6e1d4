/**
 * ElytronPolicyConfigurationFactory as objects: the factory owns the registry
 * map and updates it in place; the configurations it hands out are objects
 * whose state the factory changes. Every method is tied, through Snapshot(),
 * to the value model in PolicyLifecycle.
 */
module ElytronJacc {
  import opened PolicyLifecycle

  /**
   * ElytronPolicyConfiguration, reduced to its identity and its state; the
   * permissions it accumulates are not part of this model. The ghost
   * `transitions` records, in order, every state change made to the instance
   * after its construction.
   */
  class PolicyConfiguration {
    const contextId: string
    var state: State
    ghost var transitions: seq<State>

    constructor (contextId: string)
      ensures this.contextId == contextId && state == Open && transitions == []
    {
      this.contextId := contextId;
      state := Open;
      transitions := [];
    }

    method Delete()
      modifies this
      ensures state == Deleted
      ensures transitions == old(transitions) + [Deleted]
    {
      state := Deleted;
      transitions := transitions + [Deleted];
    }

    method TransitionTo(target: State)
      modifies this
      ensures state == target
      ensures transitions == old(transitions) + [target]
    {
      state := target;
      transitions := transitions + [target];
    }
  }

  class PolicyConfigurationFactory {
    /** The process-wide map from context identifier to configuration. */
    var configurationRegistry: map<string, PolicyConfiguration>

    /** Every configuration is stored under its own context identifier. */
    ghost predicate Valid()
      reads this
    {
      forall k | k in configurationRegistry :: configurationRegistry[k].contextId == k
    }

    /** The registry as a value: each identifier with its instance and that instance's state. */
    ghost function Snapshot(): Registry<PolicyConfiguration>
      reads this, configurationRegistry.Values
    {
      map k | k in configurationRegistry :: Entry(configurationRegistry[k], configurationRegistry[k].state)
    }

    constructor ()
      ensures Valid() && configurationRegistry == map[]
    {
      configurationRegistry := map[];
    }

    /** computeIfAbsent with the configuration's constructor. */
    method CreatePolicyConfiguration(contextId: string) returns (c: PolicyConfiguration)
      requires Valid()
      modifies this
      ensures Valid()
      ensures contextId !in old(configurationRegistry) ==> fresh(c) && c.transitions == []
      ensures (c, Snapshot()) == CreateIfAbsent(old(Snapshot()), contextId, c)
    {
      if contextId in configurationRegistry {
        c := configurationRegistry[contextId];
      } else {
        c := new PolicyConfiguration(contextId);
        configurationRegistry := configurationRegistry[contextId := c];
        assert Snapshot() == old(Snapshot())[contextId := Entry(c, Open)];
      }
    }

    /** The private getPolicyConfiguration(contextID, create, remove). */
    method ObtainPolicyConfiguration(contextId: Option<string>, create: bool, remove: bool)
      returns (r: Result<Option<PolicyConfiguration>>)
      requires Valid()
      modifies this, configurationRegistry.Values
      ensures Valid()
      ensures contextId.Some? && contextId.value !in old(configurationRegistry) && create ==>
        r.Ok? && r.value.Some? && fresh(r.value.value) && r.value.value.transitions == []
      ensures var s := Obtain<PolicyConfiguration?>(old(Snapshot()), contextId, create, remove, Returned(r));
              s.result == r && s.next == Snapshot()
      // the transitions made to instances: the value model's `applied`, in
      // that order, on the instance found under the identifier, none on the others
      ensures contextId.Some? && contextId.value in old(configurationRegistry) ==>
        configurationRegistry[contextId.value].transitions
          == old(configurationRegistry[contextId.value].transitions)
           + Obtain<PolicyConfiguration?>(old(Snapshot()), contextId, create, remove, Returned(r)).applied
      ensures forall k | k in old(configurationRegistry) && contextId != Some(k) ::
        configurationRegistry[k].transitions == old(configurationRegistry[k].transitions)
    {
      if contextId.None? {
        return Err(NullParameter("contextID"));
      }
      var id := contextId.value;
      if id !in configurationRegistry {
        if create {
          var c := CreatePolicyConfiguration(id);
          return Ok(Some(c));
        }
        return Ok(None);
      }
      var c := configurationRegistry[id];
      if remove {
        c.Delete();
      }
      c.TransitionTo(Open);
      assert Snapshot() == old(Snapshot())[id := Entry(c, Open)];
      return Ok(Some(c));
    }

    /** getPolicyConfiguration(contextID, remove): get-or-create for a deployer. */
    method GetPolicyConfiguration(contextId: Option<string>, remove: bool)
      returns (r: Result<Option<PolicyConfiguration>>)
      requires Valid()
      modifies this, configurationRegistry.Values
      ensures Valid()
      ensures contextId.Some? && contextId.value !in old(configurationRegistry) ==>
        r.Ok? && r.value.Some? && fresh(r.value.value) && r.value.value.transitions == []
      ensures var s := Obtain<PolicyConfiguration?>(old(Snapshot()), contextId, true, remove, Returned(r));
              s.result == r && s.next == Snapshot()
      // the transitions made to instances: the value model's `applied`, in
      // that order, on the instance found under the identifier, none on the others
      ensures contextId.Some? && contextId.value in old(configurationRegistry) ==>
        configurationRegistry[contextId.value].transitions
          == old(configurationRegistry[contextId.value].transitions)
           + Obtain<PolicyConfiguration?>(old(Snapshot()), contextId, true, remove, Returned(r)).applied
      ensures forall k | k in old(configurationRegistry) && contextId != Some(k) ::
        configurationRegistry[k].transitions == old(configurationRegistry[k].transitions)
    {
      r := ObtainPolicyConfiguration(contextId, true, remove);
    }

    /**
     * getPolicyConfiguration(contextID): never creates. The handler for
     * PolicyContextException that turns it into null is not reachable here,
     * and the null-identifier error is not one, so it passes through.
     */
    method FindPolicyConfiguration(contextId: Option<string>)
      returns (r: Result<Option<PolicyConfiguration>>)
      requires Valid()
      modifies this, configurationRegistry.Values
      ensures Valid()
      ensures var s := Obtain<PolicyConfiguration?>(old(Snapshot()), contextId, false, false, null);
              s.result == r && s.next == Snapshot()
      // the transitions made to instances: the value model's `applied`, in
      // that order, on the instance found under the identifier, none on the others
      ensures contextId.Some? && contextId.value in old(configurationRegistry) ==>
        configurationRegistry[contextId.value].transitions
          == old(configurationRegistry[contextId.value].transitions)
           + Obtain<PolicyConfiguration?>(old(Snapshot()), contextId, false, false, null).applied
      ensures forall k | k in old(configurationRegistry) && contextId != Some(k) ::
        configurationRegistry[k].transitions == old(configurationRegistry[k].transitions)
    {
      r := ObtainPolicyConfiguration(contextId, false, false);
    }

    /** inService(contextID). */
    function InService(contextId: Option<string>): (r: Result<bool>)
      reads this, configurationRegistry.Values
      ensures r == InServiceOf(Snapshot(), contextId)
      ensures r == Ok(true) <==>
        contextId.Some? && contextId.value in configurationRegistry &&
        configurationRegistry[contextId.value].state == State.InService
    {
      match contextId
      case None => Err(NullParameter("contextID"))
      case Some(id) =>
        if id !in configurationRegistry then Ok(false)
        else Ok(configurationRegistry[id].state == State.InService)
    }

    /** getCurrentPolicyConfiguration() for the caller whose context identifier is `currentId`. */
    function GetCurrentPolicyConfiguration(currentId: Option<string>): (r: Result<PolicyConfiguration>)
      reads this, configurationRegistry.Values
      ensures r == Current(Snapshot(), currentId)
      // only the stored instance, and only while it is in service
      ensures r.Ok? ==>
        currentId.Some? && currentId.value in configurationRegistry &&
        configurationRegistry[currentId.value] == r.value && r.value.state == State.InService
    {
      match currentId
      case None => Err(ContextIdentifierNotSet)
      case Some(id) =>
        if id !in configurationRegistry then
          Err(UnableToObtainPolicyConfiguration(id, InvalidPolicyContextIdentifier))
        else if configurationRegistry[id].state != State.InService then
          Err(UnableToObtainPolicyConfiguration(id, PolicyConfigurationNotInService))
        else
          Ok(configurationRegistry[id])
    }

    /** The no-argument getPolicyConfiguration(). */
    function CurrentPolicyConfigurationOrNull(currentId: Option<string>): (r: Option<PolicyConfiguration>)
      reads this, configurationRegistry.Values
      ensures r == CurrentOrNull(Snapshot(), currentId)
    {
      match GetCurrentPolicyConfiguration(currentId)
      case Ok(c) => Some(c)
      case Err(_) => None
    }
  }

  /** The instance a get-or-create returned, or null. */
  function Returned(r: Result<Option<PolicyConfiguration>>): PolicyConfiguration?
  {
    if r.Ok? && r.value.Some? then r.value.value else null
  }

  /** In a valid factory no configuration is stored under two identifiers. */
  lemma OneIdentifierPerInstance(f: PolicyConfigurationFactory)
    requires f.Valid()
    ensures Injective(f.Snapshot())
  {
  }
}
