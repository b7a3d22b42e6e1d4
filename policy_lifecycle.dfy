/**
 * Value-level model of the registry kept by ElytronPolicyConfigurationFactory:
 * one process-wide map from a policy context identifier to the single policy
 * configuration instance for that context, and the outcomes of the factory's
 * operations on it. The type of instances is a parameter, so that "the same
 * instance" is plain equality and the model fits both values and objects.
 */
module PolicyLifecycle {

  datatype Option<+T> = None | Some(value: T)

  /** The states of a policy configuration (jakarta.security.jacc). */
  datatype State = Open | InService | Deleted

  /** Why the configuration of the current context could not be obtained. */
  datatype Cause =
    | InvalidPolicyContextIdentifier   // no entry for the identifier
    | PolicyConfigurationNotInService  // an entry, but not in service

  /** What the factory raises. */
  datatype Error =
    | NullParameter(name: string)      // IllegalArgumentException of checkNotNullParam
    | ContextIdentifierNotSet          // no policy context identifier for the caller
    | UnableToObtainPolicyConfiguration(contextId: string, cause: Cause)

  datatype Result<+T> = Ok(value: T) | Err(error: Error)

  /** A registry entry: the stored instance and the state it is in. */
  datatype Entry<+I> = Entry(config: I, state: State)

  type Registry<+I> = map<string, Entry<I>>

  /**
   * The outcome of get-or-create: the value returned (None is Java's null),
   * the registry afterwards, and the transitions applied, in order, to the
   * instance that was already stored under the identifier.
   */
  datatype Step<+I> = Step(result: Result<Option<I>>, next: Registry<I>, applied: seq<State>)

  /** Distinct identifiers never share an instance. */
  ghost predicate Injective<I>(reg: Registry<I>)
  {
    forall k1, k2 | k1 in reg && k2 in reg && k1 != k2 :: reg[k1].config != reg[k2].config
  }

  /** The instance stored under some identifier. */
  ghost predicate Stored<I>(reg: Registry<I>, c: I)
  {
    exists k | k in reg :: reg[k].config == c
  }

  /**
   * computeIfAbsent(contextID, ElytronPolicyConfiguration::new): the instance
   * already under the identifier if there is one, otherwise `made`, a new
   * instance in state Open, which is inserted.
   */
  function CreateIfAbsent<I>(reg: Registry<I>, contextId: string, made: I): (r: (I, Registry<I>))
    ensures contextId in r.1 && r.1[contextId].config == r.0
    ensures contextId in reg ==> r == (reg[contextId].config, reg)
    ensures contextId !in reg ==> r.0 == made && r.1[contextId].state == Open
    ensures r.1.Keys == reg.Keys + {contextId}
    ensures forall k | k in reg :: r.1[k] == reg[k]
  {
    if contextId in reg then (reg[contextId].config, reg)
    else (made, reg[contextId := Entry(made, Open)])
  }

  /**
   * The private getPolicyConfiguration(contextID, create, remove). `made` is
   * the instance the constructor yields when one has to be created.
   */
  function Obtain<I>(reg: Registry<I>, contextId: Option<string>, create: bool, remove: bool, made: I): (s: Step<I>)
    // a null identifier is rejected before the registry is consulted
    ensures contextId.None? ==> s == Step(Err(NullParameter("contextID")), reg, [])
    // a key is added only when an instance is returned, and never removed
    ensures s.next.Keys == reg.Keys + (if s.result.Ok? && s.result.value.Some? then {contextId.value} else {})
    // otherwise nothing is raised, and null comes back exactly for an unknown
    // identifier when creating is not asked for
    ensures contextId.Some? ==> s.result.Ok?
    ensures contextId.Some? ==>
      (s.result == Ok(None) <==> contextId.value !in reg && !create)
    // an unknown identifier: `made` is inserted, Open, and returned
    ensures contextId.Some? && contextId.value !in reg && create ==>
      s.result == Ok(Some(made)) && s.next[contextId.value] == Entry(made, Open)
    // a known identifier: the instance already stored, reopened, is returned;
    // with `remove` it is deleted first
    ensures contextId.Some? && contextId.value in reg ==>
      && s.result == Ok(Some(reg[contextId.value].config))
      && s.next[contextId.value] == Entry(reg[contextId.value].config, Open)
      && s.applied == (if remove then [Deleted, Open] else [Open])
    // whatever is returned is what the registry now holds, in state Open
    ensures s.result.Ok? && s.result.value.Some? ==>
      contextId.Some? && s.next[contextId.value] == Entry(s.result.value.value, Open)
    // no other entry is touched
    ensures forall k | k in reg && contextId != Some(k) :: s.next[k] == reg[k]
  {
    match contextId
    case None => Step(Err(NullParameter("contextID")), reg, [])
    case Some(id) =>
      if id !in reg then
        if create then
          var (c, next) := CreateIfAbsent(reg, id, made);
          Step(Ok(Some(c)), next, [])
        else
          Step(Ok(None), reg, [])
      else
        var c := reg[id].config;
        var applied := (if remove then [Deleted] else []) + [Open];
        Step(Ok(Some(c)), reg[id := Entry(c, Open)], applied)
  }

  /** inService(contextID). */
  function InServiceOf<I>(reg: Registry<I>, contextId: Option<string>): (r: Result<bool>)
    ensures contextId.None? <==> r == Err(NullParameter("contextID"))
    ensures r == Ok(true) <==>
      contextId.Some? && contextId.value in reg && reg[contextId.value].state == InService
    ensures contextId.Some? && contextId.value !in reg ==> r == Ok(false)
  {
    match contextId
    case None => Err(NullParameter("contextID"))
    case Some(id) => if id !in reg then Ok(false) else Ok(reg[id].state == InService)
  }

  /**
   * getCurrentPolicyConfiguration(), with the caller's policy context
   * identifier passed in. The two failures raised inside the try block are
   * wrapped as "unable to obtain"; a missing identifier is raised as is.
   */
  function Current<I>(reg: Registry<I>, currentId: Option<string>): (r: Result<I>)
    ensures currentId.None? <==> r == Err(ContextIdentifierNotSet)
    ensures currentId.Some? && currentId.value !in reg ==>
      r == Err(UnableToObtainPolicyConfiguration(currentId.value, InvalidPolicyContextIdentifier))
    ensures currentId.Some? && currentId.value in reg && reg[currentId.value].state != InService ==>
      r == Err(UnableToObtainPolicyConfiguration(currentId.value, PolicyConfigurationNotInService))
    // success hands out exactly the stored instance, and only when it is in service
    ensures r.Ok? <==>
      currentId.Some? && currentId.value in reg && reg[currentId.value].state == InService
    ensures r.Ok? ==> r.value == reg[currentId.value].config
  {
    match currentId
    case None => Err(ContextIdentifierNotSet)
    case Some(id) =>
      if id !in reg then
        Err(UnableToObtainPolicyConfiguration(id, InvalidPolicyContextIdentifier))
      else if reg[id].state != InService then
        Err(UnableToObtainPolicyConfiguration(id, PolicyConfigurationNotInService))
      else
        Ok(reg[id].config)
  }

  /** The no-argument getPolicyConfiguration(): every failure becomes null. */
  function CurrentOrNull<I>(reg: Registry<I>, currentId: Option<string>): (r: Option<I>)
    ensures r.Some? <==> Current(reg, currentId).Ok?
    ensures r.Some? ==>
      currentId.Some? && currentId.value in reg && reg[currentId.value] == Entry(r.value, InService)
  {
    match Current(reg, currentId)
    case Ok(c) => Some(c)
    case Err(_) => None
  }

  /** Get-or-create keeps distinct identifiers on distinct instances when the instance it creates is new. */
  lemma ObtainKeepsInjective<I>(reg: Registry<I>, contextId: Option<string>, create: bool, remove: bool, made: I)
    requires Injective(reg)
    requires !Stored(reg, made)
    ensures Injective(Obtain(reg, contextId, create, remove, made).next)
  {
  }

  /**
   * A reopened configuration leaves service: until it is committed again,
   * inService is false and the current-context lookup refuses it.
   */
  lemma ReopenWithdrawsFromService<I>(reg: Registry<I>, id: string, create: bool, remove: bool, made: I)
    requires Obtain(reg, Some(id), create, remove, made).result.value.Some?
    ensures InServiceOf(Obtain(reg, Some(id), create, remove, made).next, Some(id)) == Ok(false)
    ensures Current(Obtain(reg, Some(id), create, remove, made).next, Some(id))
         == Err(UnableToObtainPolicyConfiguration(id, PolicyConfigurationNotInService))
  {
  }
}
