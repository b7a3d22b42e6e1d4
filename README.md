# Policy configuration registry of ElytronPolicyConfigurationFactory

This project models the Jakarta Authorization (formerly JACC) policy
configuration factory of WildFly Elytron: a process-wide registry mapping each
policy context identifier to the one `ElytronPolicyConfiguration` instance of
that context, with

- get-or-create (`getPolicyConfiguration(contextID, remove)`), which creates
  an instance for an unknown identifier and otherwise reopens the stored one,
  deleting it first when asked to;
- the non-creating lookup `getPolicyConfiguration(contextID)`;
- `inService(contextID)`;
- `getCurrentPolicyConfiguration()` and the no-argument
  `getPolicyConfiguration()`, which resolve the configuration of the caller's
  current policy context and hand it out only while it is in service.

The project has three files:

- `policy_lifecycle.dfy` (module `PolicyLifecycle`) is the value model. The
  registry is a `map` from identifier to `Entry(config, state)`. The instance
  type is a type parameter, so "the same instance" is plain equality. Each
  operation is a function whose contract states its outcome and which entries
  it leaves alone.
- `registry_history.dfy` (module `RegistryHistory`) covers histories: any
  sequence of factory calls, interleaved with the state changes that holders
  make to their instances (commit, delete). It proves that over every history
  no identifier is ever removed, an identifier keeps its first instance
  forever, and calls for other identifiers leave an entry untouched. It also
  proves that, starting from a registry with no shared instance, along a
  history whose creations use new instances, no two identifiers ever share an
  instance.
- `jacc_factory.dfy` (module `ElytronJacc`) holds the objects. The factory is
  a class whose `configurationRegistry` map is updated in place, and the
  configurations are objects whose `state` the factory changes. Each method
  and function is tied to the value model through the ghost `Snapshot()`,
  which reads the map and every stored instance's state. Each configuration
  also keeps a ghost record of the state changes made to it, so that the
  order of `delete()` and `transitionTo(OPEN)` is part of the contracts.

Each factory call is one atomic step, as the `synchronized` blocks make it.
The caller's policy context identifier, which the source reads from
`PolicyContext`, is passed in as an `Option<string>`. A Java `null` is
`None`: as an argument, and as the value returned by the lookups.

The model follows the code. In particular:

- The one-argument `getPolicyConfiguration(contextID)` is not read-only. For a
  known identifier it moves the stored instance to OPEN, exactly like
  get-or-create without deletion (`create` false, `remove` false at line 127).
- Redeploying with `remove` set reuses the stored instance: it is deleted and
  then reopened. No new instance is created (lines 109-115).
- Only a `null` identifier is rejected (`checkNotNullParam`). The empty string
  is an ordinary key.
- An unknown identifier and a configuration that is not in service both come
  back from `getCurrentPolicyConfiguration` as "unable to obtain", carrying the
  specific cause. The exceptions thrown at lines 86 and 90 are caught at
  line 94 and wrapped. Only the missing identifier (line 79) is raised
  unwrapped.
- A `null` identifier given to `getPolicyConfiguration(contextID)` raises the
  illegal-argument error. The handler at line 128 catches only
  `PolicyContextException`, so it does not turn this error into `null`.

## Model

| member | source | states |
|---|---|---|
| `PolicyLifecycle.CreateIfAbsent` | authorization/src/main/java/org/wildfly/security/authz/jacc/ElytronPolicyConfigurationFactory.java:160-162 | afterwards the identifier maps to the returned instance; the stored instance is returned and nothing changes if there is one; otherwise the new instance is inserted in state Open; exactly that one key is added and no entry changes |
| `PolicyLifecycle.Obtain` | authorization/src/main/java/org/wildfly/security/authz/jacc/ElytronPolicyConfigurationFactory.java:99-117 | a null identifier is rejected with the registry untouched; null is returned exactly when the identifier is unknown and creating is off; an unknown identifier with creating on gets the new instance, stored Open; a known identifier gets its stored instance back, reopened, with delete applied before the transition to Open when removing; whatever is returned is what the registry now holds, in state Open; a key is added only with a returned instance, none is removed; no other entry changes |
| `PolicyLifecycle.InServiceOf` | authorization/src/main/java/org/wildfly/security/authz/jacc/ElytronPolicyConfigurationFactory.java:146-158 | a null identifier is rejected; the result is true exactly when the identifier is stored and its instance is in service; an unknown identifier gives false, not an error |
| `PolicyLifecycle.Current` | authorization/src/main/java/org/wildfly/security/authz/jacc/ElytronPolicyConfigurationFactory.java:69-97 | no current identifier gives "context identifier not set"; an unknown identifier or an instance not in service gives "unable to obtain" wrapping that cause; success happens exactly when the stored instance is in service, and returns that instance |
| `PolicyLifecycle.CurrentOrNull` | authorization/src/main/java/org/wildfly/security/authz/jacc/ElytronPolicyConfigurationFactory.java:136-143 | the result is non-null exactly when the current-context lookup succeeds, and is then the in-service instance stored under the current identifier |
| `PolicyLifecycle.ObtainKeepsInjective` | authorization/src/main/java/org/wildfly/security/authz/jacc/ElytronPolicyConfigurationFactory.java:103-115 | when the instance a create would insert is new, get-or-create keeps distinct identifiers on distinct instances |
| `PolicyLifecycle.ReopenWithdrawsFromService` | authorization/src/main/java/org/wildfly/security/authz/jacc/ElytronPolicyConfigurationFactory.java:113 | after get-or-create returns an instance, inService is false for its identifier and the current-context lookup refuses it as not in service |
| `RegistryHistory.RunNeverRemovesKeys` | authorization/src/main/java/org/wildfly/security/authz/jacc/ElytronPolicyConfigurationFactory.java:56 | over any history of calls, every identifier present at the start is still present at the end |
| `RegistryHistory.RunKeepsInstance` | authorization/src/main/java/org/wildfly/security/authz/jacc/ElytronPolicyConfigurationFactory.java:109-115 | over any history, an identifier keeps the very instance it had; no history swaps in a replacement |
| `RegistryHistory.RunOnlyTouchesNamedKeys` | authorization/src/main/java/org/wildfly/security/authz/jacc/ElytronPolicyConfigurationFactory.java:103-115 | a history none of whose calls names an identifier leaves that identifier's presence and entry exactly as they were |
| `RegistryHistory.SameInstanceAcrossHistory` | authorization/src/main/java/org/wildfly/security/authz/jacc/ElytronPolicyConfigurationFactory.java:106 | get-or-create for an identifier, then any history, then another get-or-create for it: both return the same instance |
| `RegistryHistory.RunKeepsInjective` | authorization/src/main/java/org/wildfly/security/authz/jacc/ElytronPolicyConfigurationFactory.java:161 | along a history whose creations use new instances, no two identifiers ever share an instance |
| `ElytronJacc.PolicyConfiguration.constructor` | authorization/src/main/java/org/wildfly/security/authz/jacc/ElytronPolicyConfigurationFactory.java:161 | a new configuration carries its context identifier and starts Open, with no state changes recorded |
| `ElytronJacc.PolicyConfiguration.Delete` | authorization/src/main/java/org/wildfly/security/authz/jacc/ElytronPolicyConfigurationFactory.java:110 | delete() leaves the instance Deleted and records that change after the earlier ones |
| `ElytronJacc.PolicyConfiguration.TransitionTo` | authorization/src/main/java/org/wildfly/security/authz/jacc/ElytronPolicyConfigurationFactory.java:113 | transitionTo(s) leaves the instance in state s and records that change after the earlier ones |
| `ElytronJacc.PolicyConfigurationFactory.constructor` | authorization/src/main/java/org/wildfly/security/authz/jacc/ElytronPolicyConfigurationFactory.java:56 | the registry starts empty and valid |
| `ElytronJacc.PolicyConfigurationFactory.CreatePolicyConfiguration` | authorization/src/main/java/org/wildfly/security/authz/jacc/ElytronPolicyConfigurationFactory.java:160-162 | returned instance and new registry are those of `CreateIfAbsent`, and the instance is freshly allocated, with no state changes recorded, when the identifier was unknown; every instance stays under its own identifier |
| `ElytronJacc.PolicyConfigurationFactory.ObtainPolicyConfiguration` | authorization/src/main/java/org/wildfly/security/authz/jacc/ElytronPolicyConfigurationFactory.java:99-117 | the result and the new registry (keys, instances and every stored instance's state) are those of `Obtain`; a created instance is freshly allocated with no state changes recorded; the instance found under a known identifier has exactly `Obtain`'s `applied` appended to its recorded changes (delete then Open when removing, Open otherwise), and every other stored instance records no change; every instance stays under its own identifier |
| `ElytronJacc.PolicyConfigurationFactory.GetPolicyConfiguration` | authorization/src/main/java/org/wildfly/security/authz/jacc/ElytronPolicyConfigurationFactory.java:120-122 | get-or-create with creating on: `Obtain` with create true; a non-null identifier always yields an instance, new when the identifier was unknown; the stored instance records delete then Open when removing, Open otherwise, and no other instance changes |
| `ElytronJacc.PolicyConfigurationFactory.FindPolicyConfiguration` | authorization/src/main/java/org/wildfly/security/authz/jacc/ElytronPolicyConfigurationFactory.java:125-133 | `Obtain` with create and remove false: null for an unknown identifier with nothing changed, the stored instance reopened otherwise (recording exactly one transition to Open, no delete), no other instance changed, and the null-identifier error passed through |
| `ElytronJacc.PolicyConfigurationFactory.InService` | authorization/src/main/java/org/wildfly/security/authz/jacc/ElytronPolicyConfigurationFactory.java:146-158 | equals `InServiceOf` on the snapshot; true exactly when the identifier's stored instance is in service; a function, so nothing is changed |
| `ElytronJacc.PolicyConfigurationFactory.GetCurrentPolicyConfiguration` | authorization/src/main/java/org/wildfly/security/authz/jacc/ElytronPolicyConfigurationFactory.java:69-97 | equals `Current` on the snapshot; success hands out only the instance stored under the current identifier, and only while it is in service |
| `ElytronJacc.PolicyConfigurationFactory.CurrentPolicyConfigurationOrNull` | authorization/src/main/java/org/wildfly/security/authz/jacc/ElytronPolicyConfigurationFactory.java:136-143 | equals `CurrentOrNull` on the snapshot: the in-service instance of the current context, or null on any failure |
| `ElytronJacc.OneIdentifierPerInstance` | authorization/src/main/java/org/wildfly/security/authz/jacc/ElytronPolicyConfigurationFactory.java:161 | in a valid factory, where each instance is stored under its own context identifier, no instance is stored under two identifiers |

## Left out

- Concurrency: the `ConcurrentHashMap` and the `synchronized (configurationRegistry)` blocks (lines 102 and 149) only serialise calls, so each call is one atomic step.
- Where the current context identifier comes from: the security-manager test, `doPrivileged` and `PolicyContext.getContextID()` (lines 72-76). The identifier is a parameter.
- Logging (lines 130 and 140) and the text of exception messages. Errors are datatype values, identified by kind, identifier and cause.
- The static field: the registry is a field of one factory object, which the process holds as its singleton.
- `ElytronPolicyConfiguration` is not part of this model. It is reduced to its context identifier, its state and a ghost record of its state changes. The permission store is left out, and so are `commit()` and whatever `delete()` clears. `delete()` and `transitionTo()` only set the state and record the change, and `inService()` is `state == InService`. Any `PolicyContextException` these methods may raise is not modelled. So the handler in `getPolicyConfiguration(contextID)` (lines 128-132) never fires here, and the general `catch (Exception)` at line 94 wraps only the two failures raised at lines 86 and 90.
- security/src/main/java/org/wildfly/security/soteria/integration/ElytronCallerDetailsResolver.java is not part of this model. It is a thin adapter over the ambient security identity.
