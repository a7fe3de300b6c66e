/** What the mesh answers, exactly: when a run may be created, when a session resolves, and when a capability or a
    request is allowed, each said without the functions that decide it. */
module MeshAnswers {
  import opened Prelude
  import opened Text
  import opened Contract
  import opened Evaluator
  import opened EvaluatorComparison
  import opened MeshModel
  import opened MeshRuns
  import opened MeshSafety
  import opened RevokedAuthority

  // ----- Creating a run -----------------------------------------------------------------------------

  /** Stored for this tenant and this agent, not revoked, issued by now and not yet expired. */
  ghost predicate HoldsDelegation(s: Stores, tenantId: Id, agentId: Id, id: Id, now: int) {
    && id in s.delegations
    && var d := s.delegations[id];
       && d.tenantId == tenantId && d.delegate == agentId && d.revokedAt.None? && d.issuedAt <= now
       && (d.expiresAt.Some? ==> now < d.expiresAt.value)
  }

  /** A tenant named in the scope is this one: the key `tenant` counts, and `tenant_id` where that is missing. */
  ghost predicate NamesTenant(scope: ResourceScope, tenantId: Id) {
    && ("tenant" in scope.attributes ==> scope.attributes["tenant"] in {Enum(tenantId), ClaimValue.Text(tenantId)})
    && ("tenant" !in scope.attributes && "tenant_id" in scope.attributes ==>
          scope.attributes["tenant_id"] in {Enum(tenantId), ClaimValue.Text(tenantId)})
  }

  /** Stored for this tenant, active, and not yet expired. */
  ghost predicate LiveRun(s: Stores, tenantId: Id, id: Id, now: int) {
    && id in s.runs && s.runs[id].tenantId == tenantId && s.runs[id].status == RunActive && now < s.runs[id].expiresAt
  }

  ghost predicate UsableAgent(s: Stores, tenantId: Id, id: Id) {
    && id in s.principals && s.principals[id].tenantId == tenantId
    && s.principals[id].kind == Agent && s.principals[id].agentState == Some(Active)
  }

  /** What a request for a run must meet. */
  ghost predicate RunAcceptable(s: Stores, t: Id, agentId: Id, request: RunRequest, now: int) {
    && !IsBlank(t) && t in s.tenants
    && var tenantId := s.tenants[t].tenantId;
       && request.capabilities != [] && now < request.expiresAt
       && UsableAgent(s, tenantId, agentId)
       && HoldsDelegation(s, tenantId, agentId, request.delegationId, now)
       && var d := s.delegations[request.delegationId];
          && (forall c <- request.capabilities :: c in d.capabilities)
          && request.scope.IsSubsetOf(d.scope) && NamesTenant(request.scope, tenantId)
          && (d.expiresAt.Some? ==> request.expiresAt <= d.expiresAt.value)
          && (request.parentRunId.Some? ==>
                && LiveRun(s, tenantId, request.parentRunId.value, now)
                && var parent := s.runs[request.parentRunId.value];
                   && (forall c <- request.capabilities :: c in parent.capabilities)
                   && request.scope.IsSubsetOf(parent.scope) && request.expiresAt <= parent.expiresAt)
  }

  lemma NamesTenantExactly(scope: ResourceScope, tenantId: Id)
    ensures TenantScopeHolds(scope, tenantId) <==> NamesTenant(scope, tenantId)
  {
  }

  lemma DelegationExactly(s: Stores, tenant: TenantContext, agentId: Id, request: RunRequest, now: int)
    ensures RunDelegation(s, tenant, agentId, request, now).Ok? <==>
            && HoldsDelegation(s, tenant.tenantId, agentId, request.delegationId, now)
            && var d := s.delegations[request.delegationId];
               && (forall c <- request.capabilities :: c in d.capabilities)
               && request.scope.IsSubsetOf(d.scope) && NamesTenant(request.scope, tenant.tenantId)
               && (d.expiresAt.Some? ==> request.expiresAt <= d.expiresAt.value)
    ensures RunDelegation(s, tenant, agentId, request, now).Ok? ==>
              RunDelegation(s, tenant, agentId, request, now).value == s.delegations[request.delegationId]
  {
    hide TenantScopeHolds, NamesTenant, ResourceScope.IsSubsetOf;
    NamesTenantExactly(request.scope, tenant.tenantId);
  }

  lemma ParentExactly(s: Stores, tenant: TenantContext, request: RunRequest, now: int)
    ensures NarrowsParent(s, tenant, request, now) <==>
            (request.parentRunId.Some? ==>
               && LiveRun(s, tenant.tenantId, request.parentRunId.value, now)
               && var parent := s.runs[request.parentRunId.value];
                  && (forall c <- request.capabilities :: c in parent.capabilities)
                  && request.scope.IsSubsetOf(parent.scope) && request.expiresAt <= parent.expiresAt)
  {
    hide ResourceScope.IsSubsetOf;
  }

  /** A run is created exactly when its id is free and the request is acceptable, and then it is active, within its
      delegation and as requested. */
  lemma RunCreatedExactly(s: Stores, n: nat, t: Id, agentId: Id, request: RunRequest, revision: nat, env: Env)
    ensures CreateRunCheck(s, n, t, agentId, request, revision, env).Ok? <==> RunAcceptable(s, t, agentId, request, env.now)
    ensures RunAcceptable(s, t, agentId, request, env.now) ==>
              var (tenantId, d) := (s.tenants[t].tenantId, s.delegations[request.delegationId]);
              var run := CreateRunCheck(s, n, t, agentId, request, revision, env).value;
              && run == AgentRun(run.id, tenantId, agentId, d.delegator, d.id, d.chain + [d.id], request.taskId,
                                 request.parentRunId, env.now, request.expiresAt, RunActive, revision, request.capabilities,
                                 request.scope, None)
              && run.id == (if request.id.Some? then request.id.value else GeneratedRunId(tenantId, n))
              && var (change, next) := CreateRun(s, n, t, agentId, request, revision, env);
                 && (change.Ok? <==> run.id !in s.runs) && (change.Ok? ==> change.value.stores == s.(runs := s.runs[run.id := run]))
                 && next == (if request.id.Some? then n else n + 1)
  {
    hide RunDelegation, NarrowsParent, HoldsDelegation, NamesTenant, LiveRun, ResourceScope.IsSubsetOf, IsBlank, GeneratedRunId;
    if t in s.tenants {
      DelegationExactly(s, s.tenants[t], agentId, request, env.now);
      ParentExactly(s, s.tenants[t], request, env.now);
    }
  }

  /** Numbers generate different ids for the same tenant. */
  lemma GeneratedIdsDiffer(tenantId: Id, m: nat, n: nat)
    requires GeneratedRunId(tenantId, m) == GeneratedRunId(tenantId, n)
    ensures m == n
  {
    assert forall k :: GeneratedRunId(tenantId, k) == ("run_" + tenantId) + ['|'] + Decimal(k);
    SuffixIsInjective("run_" + tenantId, "run_" + tenantId, '|', m, n);
  }

  /** Over every run of the mesh each stored agent run was made at a step at which its agent could act and its delegation,
      and its parent run if it has one, was live. */
  lemma MadeUnderLiveAuthority(b: Behavior, n: nat, id: Id) returns (m: nat)
    requires b.IsRun() && n < |b.states| && id in b.states[n].stores.runs
    ensures m < n && id !in b.states[m].stores.runs && id in b.states[m + 1].stores.runs
    ensures var (r, s, now) := (b.states[n].stores.runs[id], b.states[m].stores, b.envs[m].now);
            && r.createdAt == now < r.expiresAt
            && UsableAgent(s, r.tenantId, r.agent)
            && HoldsDelegation(s, r.tenantId, r.agent, r.delegationId, now) && LiveWhenMade(b, r.delegationId, m)
            && (r.parentRunId.Some? ==> LiveRun(s, r.tenantId, r.parentRunId.value, now))
  {
    hide Step, CreateRunCheck, DelegateCheck, WellFormed, HoldsDelegation, LiveRun, LiveWhenMade, UsableAgent, ResourceScope.IsSubsetOf,
         NamesTenant, IsBlank;
    m := RunCreationStep(b, n, id);
    StepAddsOnly(b.states[m], b.ops[m], b.envs[m]);
    var s, op, env := b.states[m], b.ops[m], b.envs[m];
    RunCreatedExactly(s.stores, s.runSequence, op.tenantId, op.agent, op.run, op.revision, env);
    assert RunAcceptable(s.stores, op.tenantId, op.agent, op.run, env.now);
    ReachableIsWellFormed(b, m);
    HeldIsLive(b, m, s.stores.tenants[op.tenantId].tenantId, op.agent, op.run.delegationId);
  }

  lemma HeldIsLive(b: Behavior, m: nat, tenantId: Id, agentId: Id, id: Id)
    requires b.IsRun() && m < |b.ops| && WellFormed(b.states[m].stores)
    requires HoldsDelegation(b.states[m].stores, tenantId, agentId, id, b.envs[m].now)
    ensures id in b.states[m].stores.delegations && LiveWhenMade(b, id, m) && b.states[m].stores.delegations[id].id == id
  {
    hide Step, ChainOk, RunOk;
  }

  // ----- Policies -----------------------------------------------------------------------------------

  /** The tenant has a stored policy, or policies are declared. */
  ghost predicate HasPolicy(config: Config, s: Stores, tenant: TenantContext) {
    tenant.policyId in s.policies || config.policies != []
  }

  /** The policy of a tenant is the stored one under its policy id, whatever is declared, else the compiled declaration,
      which bears that id. */
  lemma PolicyIs(config: Config, s: Stores, tenant: TenantContext)
    ensures PolicyOf(config, s, tenant).Some? <==> HasPolicy(config, s, tenant)
    ensures tenant.policyId in s.policies ==> PolicyOf(config, s, tenant) == Some(s.policies[tenant.policyId])
    ensures tenant.policyId !in s.policies && config.policies != [] ==>
              var p := PolicyOf(config, s, tenant);
              p.Some? && p.value.id == tenant.policyId && |p.value.rules| == |config.policies|
              && forall i :: 0 <= i < |config.policies| ==> p.value.rules[i].capability == config.policies[i].capability
  {
  }

  // ----- Authorizing ----------------------------------------------------------------------------------

  /** Some rule names the capability and its condition holds without a resource. */
  ghost predicate RuleMet(policy: Policy, principal: Principal, capability: Capability, clock: Option<int>) {
    exists i :: 0 <= i < |policy.rules| && policy.rules[i].capability == capability
                && Holds(policy.rules[i].condition, Facts(principal, None, clock))
  }

  /** A stored delegation of the tenant to this agent that is live and carries the capability. */
  ghost predicate BackedBy(s: Stores, tenantId: Id, agentId: Id, id: Id, capability: Capability, now: int) {
    HoldsDelegation(s, tenantId, agentId, id, now) && capability in s.delegations[id].capabilities
  }

  /** What an Allow of a capability takes. */
  ghost predicate CapabilityAuthorized(config: Config, s: Stores, context: RuntimeContext, capability: Capability, env: Env) {
    && env.auditAccepts && HasPolicy(config, s, context.tenant)
    && var (policy, p) := (PolicyOf(config, s, context.tenant).value, context.principal);
       && p.tenantId == context.tenant.tenantId && policy.id == context.tenant.policyId
       && (p.kind == Agent ==> p.agentState == Some(Active))
       && (|| RuleMet(policy, p, capability, env.clock)
           || (p.kind == Agent && exists id <- s.delegations :: BackedBy(s, context.tenant.tenantId, p.id, id, capability, env.now)))
  }

  lemma MetIsNamed(policy: Policy, principal: Principal, capability: Capability, clock: Option<int>)
    ensures RuleMet(policy, principal, capability, clock) <==> NamedAndMet(policy, principal, capability, clock)
  {
    hide Holds;
    if NamedAndMet(policy, principal, capability, clock) {
      var r :| r in policy.rules && r.capability == capability && Holds(r.condition, Facts(principal, None, clock));
      var i :| 0 <= i < |policy.rules| && policy.rules[i] == r;
    }
  }

  lemma LiveExactly(d: Delegation, now: int)
    ensures d.IsValidAt(now) <==> d.revokedAt.None? && d.issuedAt <= now && (d.expiresAt.Some? ==> now < d.expiresAt.value)
  {
  }

  /** The delegation picked from the store's listing backs an agent exactly when some stored one does. */
  lemma PickedBacksExactly(s: Stores, principal: Principal, tenant: TenantContext, listing: seq<Delegation>,
                           capability: Capability, now: int)
    requires Lists(listing, s, tenant.tenantId, principal.id) && forall id <- s.delegations :: s.delegations[id].id == id
    ensures HeldByDelegation(principal, tenant, PickDelegation(listing, capability, now), capability, now) <==>
            principal.kind == Agent && exists id <- s.delegations :: BackedBy(s, tenant.tenantId, principal.id, id, capability, now)
  {
    hide Delegation.IsValidAt, PickDelegation;
    var picked := PickDelegation(listing, capability, now);
    if id :| id in s.delegations && BackedBy(s, tenant.tenantId, principal.id, id, capability, now) {
      LiveExactly(s.delegations[id], now);
      assert s.delegations[id] in listing && Carries(s.delegations[id], capability, now);
      assert picked.value in listing;
    }
    if HeldByDelegation(principal, tenant, picked, capability, now) {
      LiveExactly(picked.value, now);
      assert picked.value in listing;
      assert BackedBy(s, tenant.tenantId, principal.id, picked.value.id, capability, now);
    }
  }

  lemma AuthorizedExactly(s: MeshState, context: RuntimeContext, capability: Capability, listing: seq<Delegation>,
                          revision: nat, env: Env)
    requires Lists(listing, s.stores, context.tenant.tenantId, context.principal.id)
    requires forall id <- s.stores.delegations :: s.stores.delegations[id].id == id
    ensures AuthorizeCapability(s, context, capability, listing, revision, env).1.Allow? <==>
            CapabilityAuthorized(s.config, s.stores, context, capability, env)
  {
    hide PolicyOf, CapabilityDecision, PickDelegation, BackedBy, HeldByDelegation, NamedAndMet, RuleMet, Append, Remember, Lists;
    var policy, p, tenant := PolicyOf(s.config, s.stores, context.tenant), context.principal, context.tenant;
    PolicyIs(s.config, s.stores, tenant);
    if policy.Some? {
      var picked := PickDelegation(listing, capability, env.now);
      CapabilityAllowedExactly(policy.value, p, tenant, picked, capability, env.now, env.clock);
      MetIsNamed(policy.value, p, capability, env.clock);
      PickedBacksExactly(s.stores, p, tenant, listing, capability, env.now);
    }
  }

  /** In every run of the mesh a capability is allowed exactly when the log accepts the event, the tenant has a policy that
      fits, an agent is active, and a rule naming the capability is met or, for an agent, some stored delegation to it is
      live and carries the capability. */
  lemma CapabilityAllowedInRunExactly(b: Behavior, n: nat)
    requires b.IsRun() && n < |b.ops| && b.ops[n].AuthorizeOp?
    ensures b.ReplyAt(n).Decided?
    ensures b.ReplyAt(n).decision.Allow? <==>
            CapabilityAuthorized(b.states[n].config, b.states[n].stores, b.ops[n].context, b.ops[n].capability, b.envs[n])
  {
    hide CapabilityAuthorized, AuthorizeCapability, ChainOk, RunOk, Lists;
    ReachableIsWellFormed(b, n);
    var s, op := b.states[n], b.ops[n];
    AuthorizedExactly(s, op.context, op.capability, op.listing, op.revision, b.envs[n]);
  }

  /** In every run a request is allowed exactly when the log accepts the event, the tenant has a policy, the request passes
      the early checks, and the first rule that applies allows it, or no rule applies and the first live delegation of
      the agent that carries the capability covers it. */
  lemma RequestAllowedInRunExactly(b: Behavior, n: nat)
    requires b.IsRun() && n < |b.ops| && b.ops[n].AuthorizeRequestOp?
    ensures b.ReplyAt(n).Decided?
    ensures b.ReplyAt(n).decision.Allow? <==>
            b.envs[n].auditAccepts
            && OtherwiseAllowed(b.states[n], b.ops[n].context, b.ops[n].request, b.ops[n].attributes, b.ops[n].listing, b.envs[n])
  {
    hide OtherwiseAllowed, AuthorizeRequest, Lists;
    var s, op := b.states[n], b.ops[n];
    ListingIsFor(s.stores, op.listing, op.context);
    RequestAllowedExactly(s, op.context, op.request, op.attributes, op.listing, op.revision, b.envs[n]);
  }
}
