/** The authority mesh as the object the application holds: operations that update its stores in place, each
    proved against the function that describes it. */
module Mesh {
  import opened Prelude
  import opened Contract
  import opened Evaluator
  import opened MeshModel

  class AuthMesh {
    const config: Config
    var stores: Stores
    var events: seq<AuditEvent>
    var auditSequence: nat
    var runSequence: nat
    var decisions: seq<Evidence>

    ghost function State(): MeshState
      reads this
    {
      MeshState(config, stores, Journal(events, auditSequence, decisions), runSequence)
    }

    constructor (config: Config, tenants: map<Id, TenantContext>, policies: map<Id, Policy>, principals: map<Id, Principal>)
      ensures State() == MeshState(config, Stores(tenants, policies, principals, map[], map[], map[], map[]), Journal([], 0, []), 0)
    {
      this.config := config;
      stores := Stores(tenants, policies, principals, map[], map[], map[], map[]);
      events, auditSequence, runSequence, decisions := [], 0, 0, [];
    }

    // ----- Store reads ----------------------------------------------------------------------------

    /** The delegations naming a delegate, in whatever order the store yields them. */
    method ListDelegations(tenantId: Id, delegate: Id) returns (listing: seq<Delegation>)
      requires forall id <- stores.delegations :: stores.delegations[id].id == id
      ensures Lists(listing, stores, tenantId, delegate)
    {
      listing := [];
      var left := stores.delegations.Keys;
      while left != {}
        invariant left <= stores.delegations.Keys
        invariant forall d <- listing ::
                    && d.id in stores.delegations && stores.delegations[d.id] == d
                    && d.tenantId == tenantId && d.delegate == delegate
        invariant forall id <- stores.delegations.Keys - left ::
                    stores.delegations[id].tenantId == tenantId && stores.delegations[id].delegate == delegate ==>
                    stores.delegations[id] in listing
        decreases |left|
      {
        var id :| id in left;
        var d := stores.delegations[id];
        if d.tenantId == tenantId && d.delegate == delegate {
          listing := listing + [d];
        }
        left := left - {id};
      }
    }

    /** The stored policy of the tenant, else the one compiled from the declaration. */
    method FindPolicy(tenant: TenantContext) returns (policy: Option<Policy>)
      ensures policy == PolicyOf(config, stores, tenant)
    {
      if tenant.policyId in stores.policies {
        policy := Some(stores.policies[tenant.policyId]);
      } else {
        policy := PolicyCompiler.PolicyFromConfig(config.policies, tenant);
      }
    }

    // ----- Audit ----------------------------------------------------------------------------------

    /** Numbers the event first, so a refused one still uses up its number. */
    method RecordEvent(tenantId: Id, note: Note, env: Env)
      modifies this`events, this`auditSequence
      ensures State() == old(State()).(journal := Append(old(State().journal), tenantId, note, env))
    {
      var id := AuditEventId(tenantId, auditSequence);
      auditSequence := auditSequence + 1;
      if env.auditAccepts {
        events := events + [AuditEvent(id, tenantId, note.kind, note.principalId, note.delegationId, note.runId,
                                       note.capability, note.reason, env.now)];
      }
    }

    method RememberDecision(e: Evidence)
      modifies this`decisions
      ensures decisions == Remember(old(decisions), e)
    {
      decisions := decisions + [e];
      if |decisions| > WINDOW {
        decisions := decisions[1..];
      }
    }

    method RecordDecision(context: RuntimeContext, capability: Capability, decision: AuthorizationDecision,
                          revision: nat, env: Env)
      returns (r: AuthorizationDecision)
      modifies this`events, this`auditSequence, this`decisions
      ensures (State().journal, r) == Record(old(State().journal), context, capability, decision, revision, env)
      ensures State() == old(State()).(journal := State().journal)
    {
      var delegationId := if decision.Allow? then decision.grant.delegationId else None;
      if delegationId.None? && context.delegation.Some? {
        delegationId := Some(context.delegation.value.id);
      }
      RecordEvent(context.tenant.tenantId,
                  Note(if decision.Allow? then Granted else Denied, Some(context.principal.id), delegationId,
                       if context.run.Some? then Some(context.run.value.id) else None, Some(capability),
                       if decision.Deny? then Some(decision.reason) else None), env);
      if !env.auditAccepts {
        return DenyPlain(AuditUnavailable);
      }
      r := Attach(decision, AuditEventId(context.tenant.tenantId, auditSequence - 1));
      RememberDecision(Evidence(r, context.principal.id, context.tenant.tenantId, capability, context.run, revision, env.now));
    }

    // ----- Delegation -----------------------------------------------------------------------------

    ghost predicate Keyed()
      reads this
    {
      forall id <- stores.delegations :: stores.delegations[id].id == id
    }

    method Delegate(tenantId: Id, request: DelegationRequest, env: Env)
      returns (r: Result<Delegation, DenialReason>, ghost listing: seq<Delegation>)
      requires Keyed()
      modifies this`stores, this`events, this`auditSequence
      ensures tenantId in old(stores).tenants ==>
                Lists(listing, old(stores), old(stores).tenants[tenantId].tenantId, request.delegator)
      ensures (State(), r) ==
              Commit(old(State()), MeshModel.Delegate(config, old(stores), tenantId, request, listing, env), env)
      ensures Keyed()
    {
      var found := TenantOf(stores, tenantId);
      listing := [];
      if tenantId in stores.tenants {
        listing := AnyListing(stores, stores.tenants[tenantId].tenantId, request.delegator);
      }
      if found.Err? {
        return Err(found.error), listing;
      }
      var tenant := found.value;
      if !config.agents || request.capabilities == [] || ExpiresTooEarly(request, env.now) {
        return Err(InvalidDelegation), listing;
      }
      var delegator := PrincipalOf(stores, tenant, request.delegator);
      if delegator.Err? {
        return Err(delegator.error), listing;
      }
      var delegate := PrincipalOf(stores, tenant, request.delegate);
      if delegate.Err? {
        return Err(delegate.error), listing;
      }
      if delegate.value.kind == Human {
        return Err(InvalidDelegation), listing;
      }
      if Unusable(delegate.value).Some? {
        return Err(Unusable(delegate.value).value), listing;
      }
      var policy := FindPolicy(tenant);
      if policy.None? {
        return Err(PolicyNotFound), listing;
      }
      var held := ListDelegations(tenant.tenantId, request.delegator);
      listing := held;
      var envelope := EvaluateWithDelegations(policy.value, delegator.value, tenant, held, env.now, env.clock);
      if envelope.Err? {
        return Err(PolicyNotFound), listing;
      }
      var scanned := ScanRequest(delegator.value.kind, envelope.value, held, request, env.now);
      if scanned.Err? {
        return Err(scanned.error), listing;
      }
      if request.delegator == request.delegate || request.id in stores.delegations {
        return Err(InvalidDelegation), listing;
      }
      var d := Delegation(request.id, request.delegator, request.delegate, tenant.tenantId, request.capabilities,
                          request.scope, request.issuedAt, request.expiresAt, None, scanned.value);
      stores := stores.(delegations := stores.delegations[d.id := d]);
      RecordEvent(tenant.tenantId, Note(DelegationCreated, Some(d.delegate), Some(d.id), None, None, None), env);
      r := if env.auditAccepts then Ok(d) else Err(TenantMismatch);
    }

    /** Checks every requested capability in turn and builds the chain from the first one's source. */
    method ScanRequest(kind: PrincipalKind, held: seq<GrantedCapability>, listing: seq<Delegation>,
                       request: DelegationRequest, now: int)
      returns (r: Result<seq<Id>, DenialReason>)
      ensures r == Scan(kind, held, listing, request, now, |request.capabilities|)
    {
      hide Carries, GrantFor;
      var chain: seq<Id> := [];
      for i := 0 to |request.capabilities|
        invariant Scan(kind, held, listing, request, now, i) == Ok(chain)
      {
        var capability := request.capabilities[i];
        ghost var step := ScanStep(kind, held, listing, request.scope, chain, capability, now);
        if GrantFor(held, capability).None? {
          FailureIsFinal(kind, held, listing, request, now, i + 1);
          return Err(DelegationExceedsAuthority);
        }
        if kind == Agent {
          var source := IndexWhere(listing, (d: Delegation) => Carries(d, capability, now));
          if source.None? {
            assert step == Err(DelegationExceedsAuthority);
            FailureIsFinal(kind, held, listing, request, now, i + 1);
            return Err(DelegationExceedsAuthority);
          }
          if !request.scope.IsSubsetOf(listing[source.value].scope) {
            assert step == Err(DelegationScopeDenied);
            FailureIsFinal(kind, held, listing, request, now, i + 1);
            return Err(DelegationScopeDenied);
          }
          if chain == [] {
            chain := listing[source.value].chain + [listing[source.value].id];
          }
        }
        assert step == Ok(chain);
      }
      r := Ok(chain);
    }

    method RevokeDelegation(tenantId: Id, id: Id, env: Env) returns (r: Result<(), DenialReason>)
      modifies this`stores, this`events, this`auditSequence
      ensures (State(), r) == Commit(old(State()), MeshModel.RevokeDelegation(old(stores), tenantId, id, env), env)
    {
      var tenant := TenantOf(stores, tenantId);
      if tenant.Err? {
        return Err(tenant.error);
      }
      if id !in stores.delegations || stores.delegations[id].tenantId != tenant.value.tenantId {
        return Err(InvalidDelegation);
      }
      stores := stores.(delegations := stores.delegations[id := stores.delegations[id].(revokedAt := Some(env.now))]);
      RecordEvent(tenant.value.tenantId, Note(DelegationRevoked, None, Some(id), None, None, None), env);
      r := if env.auditAccepts then Ok(()) else Err(TenantMismatch);
    }

    // ----- Runs -----------------------------------------------------------------------------------

    /** Is every capability of `wanted` among `allowed`? */
    method Contained(wanted: seq<Capability>, allowed: seq<Capability>) returns (ok: bool)
      ensures ok <==> forall c <- wanted :: c in allowed
    {
      for i := 0 to |wanted|
        invariant forall k :: 0 <= k < i ==> wanted[k] in allowed
      {
        if wanted[i] !in allowed {
          return false;
        }
      }
      ok := true;
    }

    method CreateAgentRun(tenantId: Id, agentId: Id, request: RunRequest, revision: nat, env: Env)
      returns (r: Result<AgentRun, DenialReason>)
      modifies this`stores, this`events, this`auditSequence, this`runSequence
      ensures var (change, sequence) :=
                CreateRun(old(stores), old(runSequence), tenantId, agentId, request, revision, env);
              var (s, reply) := Commit(old(State()), change, env);
              State() == s.(runSequence := sequence) && r == reply
    {
      hide GeneratedRunId, TenantScopeHolds;
      var tenant := TenantOf(stores, tenantId);
      if tenant.Err? {
        return Err(tenant.error);
      }
      if request.capabilities == [] {
        return Err(RunExceedsDelegation);
      }
      if request.expiresAt <= env.now {
        return Err(RunIsExpired);
      }
      var agent := PrincipalOf(stores, tenant.value, agentId);
      if agent.Err? {
        return Err(agent.error);
      }
      if agent.value.kind != Agent {
        return Err(NoSuchRun);
      }
      if Unusable(agent.value).Some? {
        return Err(Unusable(agent.value).value);
      }
      var delegation := CheckDelegation(tenant.value, agentId, request, env.now);
      if delegation.Err? {
        return Err(delegation.error);
      }
      var narrows := CheckParent(tenant.value, request, env.now);
      if !narrows {
        return Err(ParentRunScopeDenied);
      }
      var id;
      if request.id.Some? {
        id := request.id.value;
      } else {
        id := GeneratedRunId(tenant.value.tenantId, runSequence);
        runSequence := runSequence + 1;
      }
      var d := delegation.value;
      var run := AgentRun(id, tenant.value.tenantId, agentId, d.delegator, d.id, d.chain + [d.id], request.taskId,
                          request.parentRunId, env.now, request.expiresAt, RunActive, revision, request.capabilities,
                          request.scope, None);
      if id in stores.runs {
        return Err(NoSuchRun);
      }
      stores := stores.(runs := stores.runs[id := run]);
      RecordEvent(run.tenantId, Note(RunCreatedEvent, Some(agentId), Some(d.id), Some(id), None, None), env);
      r := if env.auditAccepts then Ok(run) else Err(TenantMismatch);
    }

    method CheckDelegation(tenant: TenantContext, agentId: Id, request: RunRequest, now: int)
      returns (r: Result<Delegation, DenialReason>)
      ensures r == RunDelegation(stores, tenant, agentId, request, now)
    {
      if request.delegationId !in stores.delegations {
        return Err(DelegationMissing);
      }
      var d := stores.delegations[request.delegationId];
      if d.tenantId != tenant.tenantId || d.delegate != agentId {
        return Err(InvalidDelegation);
      }
      if d.revokedAt.Some? {
        return Err(RevokedDelegation);
      }
      if !d.IsValidAt(now) {
        return Err(ExpiredDelegation);
      }
      if d.expiresAt.Some? && request.expiresAt > d.expiresAt.value {
        return Err(RunExceedsDelegation);
      }
      var contained := Contained(request.capabilities, d.capabilities);
      if !contained || !TenantScopeHolds(request.scope, tenant.tenantId) || !request.scope.IsSubsetOf(d.scope) {
        return Err(RunExceedsDelegation);
      }
      r := Ok(d);
    }

    method CheckParent(tenant: TenantContext, request: RunRequest, now: int) returns (ok: bool)
      ensures ok == NarrowsParent(stores, tenant, request, now)
    {
      if request.parentRunId.None? {
        return true;
      }
      var parent := CheckedRun(stores, tenant, request.parentRunId.value, now);
      if parent.Err? {
        return false;
      }
      ok := Contained(request.capabilities, parent.value.capabilities);
      ok := ok && request.scope.IsSubsetOf(parent.value.scope) && request.expiresAt <= parent.value.expiresAt;
    }

    method CancelAgentRun(tenantId: Id, runId: Id, env: Env) returns (r: Result<AgentRun, DenialReason>)
      modifies this`stores, this`events, this`auditSequence
      ensures (State(), r) == Commit(old(State()), CancelRun(old(stores), tenantId, runId, env), env)
    {
      var tenant := TenantOf(stores, tenantId);
      if tenant.Err? {
        return Err(tenant.error);
      }
      if runId !in stores.runs || stores.runs[runId].tenantId != tenant.value.tenantId {
        return Err(NoSuchRun);
      }
      var run := stores.runs[runId].(status := RunCancelled, cancelledAt := Some(env.now));
      stores := stores.(runs := stores.runs[runId := run]);
      RecordEvent(tenant.value.tenantId,
                  Note(RunCancelledEvent, Some(run.agent), Some(run.delegationId), Some(run.id), None, None), env);
      r := if env.auditAccepts then Ok(run) else Err(TenantMismatch);
    }

    // ----- Agents and sessions --------------------------------------------------------------------

    method SetAgentState(tenantId: Id, agent: Id, state: AgentState, env: Env) returns (r: Result<(), DenialReason>)
      modifies this`stores, this`events, this`auditSequence
      ensures (State(), r) == Commit(old(State()), MeshModel.SetAgentState(old(stores), tenantId, agent, state), env)
    {
      var tenant := TenantOf(stores, tenantId);
      if tenant.Err? {
        return Err(tenant.error);
      }
      if agent !in stores.principals || stores.principals[agent].tenantId != tenant.value.tenantId ||
         stores.principals[agent].kind != Agent {
        return Err(UnknownPrincipal);
      }
      stores := stores.(principals := stores.principals[agent := stores.principals[agent].(agentState := Some(state))]);
      var kind := match state
        case Suspended => AgentSuspendedEvent
        case Revoked => AgentRevokedEvent
        case _ => AgentCreatedEvent;
      RecordEvent(tenant.value.tenantId, Note(kind, Some(agent), None, None, None, None), env);
      r := if env.auditAccepts then Ok(()) else Err(TenantMismatch);
    }

    // ----- Authorization --------------------------------------------------------------------------

    method Authorize(context: RuntimeContext, capability: Capability, revision: nat, env: Env)
      returns (decision: AuthorizationDecision, ghost listing: seq<Delegation>)
      requires Keyed()
      modifies this`events, this`auditSequence, this`decisions
      ensures Lists(listing, stores, context.tenant.tenantId, context.principal.id)
      ensures (State().journal, decision) == AuthorizeCapability(old(State()), context, capability, listing, revision, env)
      ensures State() == old(State()).(journal := State().journal)
    {
      hide CapabilityDecision, PickDelegation, Record;
      var policy := FindPolicy(context.tenant);
      var held := ListDelegations(context.tenant.tenantId, context.principal.id);
      listing := held;
      if policy.None? {
        return DenyPlain(PolicyNotFound), listing;
      }
      decision := RecordDecision(context, capability,
                                 CapabilityDecision(policy, Some(context.principal), Some(context.tenant),
                                                    PickDelegation(held, capability, env.now), capability, env.now, env.clock),
                                 revision, env);
    }

    method AuthorizeRequest(context: RuntimeContext, request: AuthorizationRequest,
                            attributes: Option<ResourceAttributes>, revision: nat, env: Env)
      returns (decision: AuthorizationDecision, ghost listing: seq<Delegation>)
      requires Keyed()
      modifies this`events, this`auditSequence, this`decisions
      ensures Lists(listing, stores, context.tenant.tenantId, context.principal.id)
      ensures (State().journal, decision) ==
              MeshModel.AuthorizeRequest(old(State()), context, request, attributes, listing, revision, env)
      ensures State() == old(State()).(journal := State().journal)
    {
      hide RequestDecision, PickDelegation, Record;
      var policy := FindPolicy(context.tenant);
      var held := ListDelegations(context.tenant.tenantId, context.principal.id);
      listing := held;
      if policy.None? {
        return DenyPlain(PolicyNotFound), listing;
      }
      var evaluated := EvaluateAuthorizationRequest(policy, Some(context.principal), Some(context.tenant),
                                                    PickDelegation(held, request.capability, env.now), request,
                                                    attributes, env.now, env.clock);
      decision := RecordDecision(context, request.capability, evaluated, revision, env);
    }

    method AuthorizeRunRequest(context: RuntimeContext, runId: Id, request: AuthorizationRequest,
                               attributes: Option<ResourceAttributes>, revision: nat, env: Env)
      returns (decision: AuthorizationDecision, ghost listing: seq<Delegation>)
      requires Keyed()
      modifies this`events, this`auditSequence, this`decisions
      ensures Lists(listing, stores, context.tenant.tenantId, context.principal.id)
      ensures (State().journal, decision) ==
              AuthorizeRun(old(State()), context, runId, request, attributes, listing, revision, env)
      ensures State() == old(State()).(journal := State().journal)
    {
      hide MeshModel.AuthorizeRequest, Record, ScopeMatches;
      var denial := RunDenial(stores, context, runId, request, attributes, env.now);
      if denial.Some? {
        listing := AnyListing(stores, context.tenant.tenantId, context.principal.id);
        var policy := FindPolicy(context.tenant);
        var (reason, run) := denial.value;
        decision := RecordDecision(if run.Some? then context.(run := run) else context, request.capability,
                                   DenyFor(request, reason, policy, []), revision, env);
      } else {
        var run := CheckedRun(stores, context.tenant, runId, env.now).value;
        decision, listing := AuthorizeRequest(context.(run := Some(run)), request, attributes, revision, env);
      }
    }
  }

  /** An error in an early capability is the outcome of the whole scan. */
  lemma {:induction false} FailureIsFinal(kind: PrincipalKind, held: seq<GrantedCapability>, listing: seq<Delegation>,
                                          request: DelegationRequest, now: int, n: nat)
    requires n <= |request.capabilities| && Scan(kind, held, listing, request, now, n).Err?
    ensures Scan(kind, held, listing, request, now, |request.capabilities|) == Scan(kind, held, listing, request, now, n)
    decreases |request.capabilities| - n
  {
    if n < |request.capabilities| {
      FailureIsFinal(kind, held, listing, request, now, n + 1);
    }
  }

  /** Some listing always exists. */
  ghost function AnyListing(s: Stores, tenantId: Id, delegate: Id): (listing: seq<Delegation>)
    requires forall id <- s.delegations :: s.delegations[id].id == id
    ensures Lists(listing, s, tenantId, delegate)
  {
    var listing := Listing(s.delegations, s.delegations.Keys, tenantId, delegate);
    listing
  }

  ghost function Listing(delegations: map<Id, Delegation>, keys: set<Id>, tenantId: Id, delegate: Id)
    : (listing: seq<Delegation>)
    requires forall id <- delegations :: delegations[id].id == id
    requires keys <= delegations.Keys
    ensures forall d <- listing ::
              d.id in keys && delegations[d.id] == d && d.tenantId == tenantId && d.delegate == delegate
    ensures forall id <- keys ::
              delegations[id].tenantId == tenantId && delegations[id].delegate == delegate ==> delegations[id] in listing
  {
    if keys == {} then []
    else
      var id :| id in keys;
      var rest := Listing(delegations, keys - {id}, tenantId, delegate);
      var d := delegations[id];
      if d.tenantId == tenantId && d.delegate == delegate then rest + [d] else rest
  }
}
