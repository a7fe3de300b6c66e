/** When a delegation is accepted, what is stored for it, and why it is refused otherwise, said without the functions that
    decide it. */
module DelegationAnswers {
  import opened Prelude
  import opened Text
  import opened Contract
  import opened Evaluator
  import opened MeshModel
  import opened MeshRuns
  import opened MeshSafety
  import opened MeshAnswers
  import opened MeshEffects

  // ----- What a delegator holds ---------------------------------------------------------------------

  ghost predicate IdsMatch(s: Stores) {
    && (forall id <- s.principals :: s.principals[id].id == id)
    && (forall id <- s.delegations :: s.delegations[id].id == id)
  }

  ghost predicate Backed(s: Stores, tenantId: Id, holder: Id, capability: Capability, now: int) {
    exists id <- s.delegations :: BackedBy(s, tenantId, holder, id, capability, now)
  }

  /** By a rule that is met without a resource, or by a live stored delegation; an agent only while it is active. */
  ghost predicate Possesses(s: Stores, policy: Policy, holder: Principal, tenantId: Id, capability: Capability, env: Env) {
    && (holder.kind == Agent ==> holder.agentState == Some(Active))
    && (RuleMet(policy, holder, capability, env.clock) || Backed(s, tenantId, holder.id, capability, env.now))
  }

  /** The first listed of the delegations that back it. */
  ghost predicate BacksFirst(s: Stores, listing: seq<Delegation>, i: int, tenantId: Id, holder: Id, capability: Capability, now: int) {
    && 0 <= i < |listing| && BackedBy(s, tenantId, holder, listing[i].id, capability, now)
    && forall j :: 0 <= j < i ==> !BackedBy(s, tenantId, holder, listing[j].id, capability, now)
  }

  lemma CarriesExactly(s: Stores, listing: seq<Delegation>, i: nat, tenantId: Id, holder: Id, capability: Capability, now: int)
    requires Lists(listing, s, tenantId, holder) && i < |listing|
    ensures Carries(listing[i], capability, now) <==> BackedBy(s, tenantId, holder, listing[i].id, capability, now)
  {
    assert listing[i] in listing;
    LiveExactly(listing[i], now);
  }

  lemma ListedIsStored(s: Stores, listing: seq<Delegation>, i: nat, tenantId: Id, holder: Id)
    requires Lists(listing, s, tenantId, holder) && i < |listing|
    ensures listing[i].id in s.delegations
  {
    assert listing[i] in listing;
  }

  lemma BackedIsListed(s: Stores, listing: seq<Delegation>, id: Id, tenantId: Id, holder: Id, capability: Capability, now: int)
    requires Lists(listing, s, tenantId, holder) && BackedBy(s, tenantId, holder, id, capability, now)
    ensures id in s.delegations && s.delegations[id] in listing
  {
  }

  lemma SourceExactly(s: Stores, listing: seq<Delegation>, tenantId: Id, holder: Id, capability: Capability, now: int)
    requires Lists(listing, s, tenantId, holder) && forall id <- s.delegations :: s.delegations[id].id == id
    ensures var source := Source(listing, capability, now);
            && (source.Some? <==> Backed(s, tenantId, holder, capability, now))
            && (forall i :: BacksFirst(s, listing, i, tenantId, holder, capability, now) <==> source == Some(i))
  {
    hide BackedBy, Carries, Lists;
    forall i: nat | i < |listing|
      ensures Carries(listing[i], capability, now) <==> BackedBy(s, tenantId, holder, listing[i].id, capability, now)
    {
      CarriesExactly(s, listing, i, tenantId, holder, capability, now);
    }
    var source := Source(listing, capability, now);
    if source.Some? {
      assert BacksFirst(s, listing, source.value, tenantId, holder, capability, now);
      ListedIsStored(s, listing, source.value, tenantId, holder);
    }
    if id :| id in s.delegations && BackedBy(s, tenantId, holder, id, capability, now) {
      BackedIsListed(s, listing, id, tenantId, holder, capability, now);
      var k :| 0 <= k < |listing| && listing[k] == s.delegations[id];
    }
  }

  lemma PossessesExactly(s: Stores, policy: Policy, holder: Principal, tenant: TenantContext, listing: seq<Delegation>,
                         capability: Capability, env: Env)
    requires Lists(listing, s, tenant.tenantId, holder.id) && forall id <- s.delegations :: s.delegations[id].id == id
    requires holder.tenantId == tenant.tenantId && policy.id == tenant.policyId
    ensures HeldGrant(Envelope(policy, holder, tenant, listing, env.now, env.clock), capability).Some? <==>
            Possesses(s, policy, holder, tenant.tenantId, capability, env)
  {
    hide RuleGrants, AddDelegations, Lists, Holds, BackedBy;
    if holder.kind == Agent && holder.agentState != Some(Active) {
      assert Envelope(policy, holder, tenant, listing, env.now, env.clock) == Ok([]);
    } else {
      HeldGrantIs(policy, holder, tenant, listing, capability, env.now, env.clock);
      FirstLiveIsSource(s, holder, tenant, listing, capability, env.now);
      SourceExactly(s, listing, tenant.tenantId, holder.id, capability, env.now);
      RuleMetExactly(policy, holder, capability, env.clock);
    }
  }

  lemma RuleMetExactly(policy: Policy, principal: Principal, capability: Capability, clock: Option<int>)
    ensures GrantingRule(policy, principal, capability, clock).Some? <==> RuleMet(policy, principal, capability, clock)
  {
    hide Holds;
  }

  lemma FirstLiveIsSource(s: Stores, holder: Principal, tenant: TenantContext, listing: seq<Delegation>, capability: Capability, now: int)
    requires Lists(listing, s, tenant.tenantId, holder.id)
    ensures FirstLive(holder, tenant, listing, now, capability).Some? <==> Source(listing, capability, now).Some?
  {
    hide Delegation.IsValidAt;
    forall d | d in listing ensures LiveFor(d, holder, tenant, now) <==> d.IsValidAt(now) {
    }
    var a, b := FirstLive(holder, tenant, listing, now, capability), Source(listing, capability, now);
    if a.Some? {
      assert listing[a.value] in listing;
    }
    if b.Some? {
      assert listing[b.value] in listing;
    }
  }

  // ----- Why a delegation is refused ----------------------------------------------------------------

  /** Why one capability may not be passed on: it is not held, or an agent draws it from no delegation, or from one that is
      narrower. */
  ghost function CapabilityRefusal(s: Stores, policy: Policy, holder: Principal, tenantId: Id, listing: seq<Delegation>,
                                   scope: ResourceScope, capability: Capability, env: Env): Option<DenialReason>
  {
    if !Possesses(s, policy, holder, tenantId, capability, env) then Some(DelegationExceedsAuthority)
    else if holder.kind != Agent then None
    else if !Backed(s, tenantId, holder.id, capability, env.now) then Some(DelegationExceedsAuthority)
    else if exists i :: BacksFirst(s, listing, i, tenantId, holder.id, capability, env.now) && scope.IsSubsetOf(listing[i].scope)
    then None
    else Some(DelegationScopeDenied)
  }

  /** Why a request is refused whoever holds what. */
  ghost function RequestRefusal(config: Config, s: Stores, t: Id, request: DelegationRequest, now: int): Option<DenialReason> {
    if !KnownTenant(s, t) then Some(UnknownTenant)
    else
      var tenantId := s.tenants[t].tenantId;
      if || !config.agents || request.capabilities == []
         || (request.expiresAt.Some? && (request.expiresAt.value <= request.issuedAt || request.expiresAt.value <= now))
      then Some(InvalidDelegation)
      else if Missing(s, tenantId, request.delegator).Some? then Missing(s, tenantId, request.delegator)
      else if Missing(s, tenantId, request.delegate).Some? then Missing(s, tenantId, request.delegate)
      else
        var delegate := s.principals[request.delegate];
        if delegate.kind == Human then Some(InvalidDelegation)
        else if delegate.kind == Agent && delegate.agentState == Some(Suspended) then Some(AgentSuspended)
        else if delegate.kind == Agent && delegate.agentState != Some(Active) then Some(AgentRevoked)
        else if !HasPolicy(config, s, s.tenants[t]) || PolicyOf(config, s, s.tenants[t]).value.id != s.tenants[t].policyId
        then Some(PolicyNotFound)
        else None
  }

  /** The chain to record: that of the delegation an agent draws the first capability from, and that delegation. */
  ghost predicate ChainRecorded(s: Stores, holder: Principal, tenantId: Id, listing: seq<Delegation>, capability: Capability,
                                chain: seq<Id>, now: int)
  {
    if holder.kind != Agent then chain == []
    else exists i :: BacksFirst(s, listing, i, tenantId, holder.id, capability, now) && chain == listing[i].chain + [listing[i].id]
  }

  lemma StepRefused(s: Stores, policy: Policy, holder: Principal, tenant: TenantContext, listing: seq<Delegation>,
                    scope: ResourceScope, chain: seq<Id>, capability: Capability, env: Env)
    requires Lists(listing, s, tenant.tenantId, holder.id) && forall id <- s.delegations :: s.delegations[id].id == id
    requires holder.tenantId == tenant.tenantId && policy.id == tenant.policyId
    ensures var held := Envelope(policy, holder, tenant, listing, env.now, env.clock).value;
            Follows(ScanStep(holder.kind, held, listing, scope, chain, capability, env.now),
                    CapabilityRefusal(s, policy, holder, tenant.tenantId, listing, scope, capability, env))
  {
    hide RuleGrants, AddDelegations, Lists, Possesses, Backed, BacksFirst, GrantFor, ResourceScope.IsSubsetOf, Carries;
    var held := Envelope(policy, holder, tenant, listing, env.now, env.clock);
    assert held.Ok?;
    PossessesExactly(s, policy, holder, tenant, listing, capability, env);
    SourceExactly(s, listing, tenant.tenantId, holder.id, capability, env.now);
    var source := Source(listing, capability, env.now);
    if source.Some? {
      assert BacksFirst(s, listing, source.value, tenant.tenantId, holder.id, capability, env.now);
    }
  }

  ghost predicate Follows<T>(r: Result<T, DenialReason>, refusal: Option<DenialReason>) {
    if refusal.Some? then r == Err(refusal.value) else r.Ok?
  }

  /** A scan whose steps follow these refusals stops at the first of them. */
  lemma {:induction false} ScanFollows(kind: PrincipalKind, held: seq<GrantedCapability>, listing: seq<Delegation>,
                                       request: DelegationRequest, now: int, refusals: seq<Option<DenialReason>>, n: nat)
    requires |refusals| == |request.capabilities| && n <= |refusals|
    requires forall k, chain :: 0 <= k < |refusals| ==>
               Follows(ScanStep(kind, held, listing, request.scope, chain, request.capabilities[k], now), refusals[k])
    ensures forall k :: 0 <= k < n && refusals[k].Some? && (forall j :: 0 <= j < k ==> refusals[j].None?) ==>
              Scan(kind, held, listing, request, now, n) == Err(refusals[k].value)
    ensures Scan(kind, held, listing, request, now, n).Ok? <==> forall k :: 0 <= k < n ==> refusals[k].None?
  {
    hide ScanStep;
    if n > 0 {
      ScanFollows(kind, held, listing, request, now, refusals, n - 1);
    }
  }

  /** What is wrong with each capability asked for. */
  ghost function Refusals(s: Stores, policy: Policy, holder: Principal, tenantId: Id, listing: seq<Delegation>,
                          request: DelegationRequest, env: Env): seq<Option<DenialReason>>
  {
    seq(|request.capabilities|, k requires 0 <= k < |request.capabilities| =>
      CapabilityRefusal(s, policy, holder, tenantId, listing, request.scope, request.capabilities[k], env))
  }

  lemma ScanRefused(s: Stores, policy: Policy, holder: Principal, tenant: TenantContext, listing: seq<Delegation>,
                    request: DelegationRequest, env: Env)
    requires Lists(listing, s, tenant.tenantId, holder.id) && forall id <- s.delegations :: s.delegations[id].id == id
    requires holder.tenantId == tenant.tenantId && policy.id == tenant.policyId && request.capabilities != []
    ensures var held := Envelope(policy, holder, tenant, listing, env.now, env.clock).value;
            var refusals := Refusals(s, policy, holder, tenant.tenantId, listing, request, env);
            var r := Scan(holder.kind, held, listing, request, env.now, |request.capabilities|);
            && (forall k :: 0 <= k < |refusals| && refusals[k].Some? && (forall j :: 0 <= j < k ==> refusals[j].None?) ==>
                  r == Err(refusals[k].value))
            && (r.Ok? <==> forall k :: 0 <= k < |refusals| ==> refusals[k].None?)
            && (r.Ok? ==> ChainRecorded(s, holder, tenant.tenantId, listing, request.capabilities[0], r.value, env.now))
  {
    var held := Envelope(policy, holder, tenant, listing, env.now, env.clock).value;
    var refusals := Refusals(s, policy, holder, tenant.tenantId, listing, request, env);
    hide Envelope, Lists, CapabilityRefusal, ScanStep, Scan, BacksFirst;
    forall k, chain | 0 <= k < |refusals|
      ensures Follows(ScanStep(holder.kind, held, listing, request.scope, chain, request.capabilities[k], env.now), refusals[k])
    {
      StepRefused(s, policy, holder, tenant, listing, request.scope, chain, request.capabilities[k], env);
    }
    ScanFollows(holder.kind, held, listing, request, env.now, refusals, |refusals|);
    if Scan(holder.kind, held, listing, request, env.now, |request.capabilities|).Ok? {
      ScanMeans(holder.kind, held, listing, request, env.now, |request.capabilities|);
      SourceExactly(s, listing, tenant.tenantId, holder.id, request.capabilities[0], env.now);
    }
  }

  // ----- The answer ---------------------------------------------------------------------------------

  /** A request is refused for the first reason that applies: one of its own, then that of the first capability that may not
      be passed on, then an id that is taken or a delegate that is the delegator. Otherwise the delegation is as requested,
      not revoked, with the chain of its source. */
  lemma DelegationAnswered(config: Config, s: Stores, t: Id, request: DelegationRequest, listing: seq<Delegation>, env: Env)
    requires IdsMatch(s) && (t in s.tenants ==> Lists(listing, s, s.tenants[t].tenantId, request.delegator))
    ensures var r := DelegateCheck(config, s, t, request, listing, env);
            var own := RequestRefusal(config, s, t, request, env.now);
            if own.Some? then r == Err(own.value)
            else
              var (tenantId, holder) := (s.tenants[t].tenantId, s.principals[request.delegator]);
              var refusals := Refusals(s, PolicyOf(config, s, s.tenants[t]).value, holder, tenantId, listing, request, env);
              && (forall k :: 0 <= k < |refusals| && refusals[k].Some? && (forall j :: 0 <= j < k ==> refusals[j].None?) ==>
                    r == Err(refusals[k].value))
              && ((forall refusal <- refusals :: refusal.None?) ==>
                    if request.delegator == request.delegate || request.id in s.delegations then r == Err(InvalidDelegation)
                    else
                      && r.Ok?
                      && r.value == Delegation(request.id, request.delegator, request.delegate, tenantId, request.capabilities,
                                               request.scope, request.issuedAt, request.expiresAt, None, r.value.chain)
                      && ChainRecorded(s, holder, tenantId, listing, request.capabilities[0], r.value.chain, env.now))
  {
    hide Lists, Refusals, ChainRecorded, IsBlank, Scan, RuleGrants, AddDelegations, PolicyOf;
    if t in s.tenants {
      PolicyIs(config, s, s.tenants[t]);
    }
    if RequestRefusal(config, s, t, request, env.now).None? {
      ScanRefused(s, PolicyOf(config, s, s.tenants[t]).value, s.principals[request.delegator], s.tenants[t], listing, request, env);
    }
  }

  /** What an accepted request meets: nothing is wrong with it, every capability may be passed on, the id is free, and the
      delegate is another. */
  ghost predicate MayBeAccepted(config: Config, s: Stores, t: Id, request: DelegationRequest, listing: seq<Delegation>, env: Env) {
    && RequestRefusal(config, s, t, request, env.now).None?
    && request.delegator != request.delegate && request.id !in s.delegations
    && forall refusal <- Refusals(s, PolicyOf(config, s, s.tenants[t]).value, s.principals[request.delegator],
                                  s.tenants[t].tenantId, listing, request, env) :: refusal.None?
  }

  lemma AcceptedWhenMayBe(config: Config, s: Stores, t: Id, request: DelegationRequest, listing: seq<Delegation>, env: Env)
    requires IdsMatch(s) && (t in s.tenants ==> Lists(listing, s, s.tenants[t].tenantId, request.delegator))
    ensures DelegateCheck(config, s, t, request, listing, env).Ok? <==> MayBeAccepted(config, s, t, request, listing, env)
  {
    hide Lists, CapabilityRefusal, ChainRecorded, IsBlank, Scan, RuleGrants, AddDelegations, PolicyOf;
    if t in s.tenants {
      PolicyIs(config, s, s.tenants[t]);
      if RequestRefusal(config, s, t, request, env.now).None? {
        ScanRefused(s, PolicyOf(config, s, s.tenants[t]).value, s.principals[request.delegator], s.tenants[t], listing, request, env);
      }
    }
  }

  /** In every run of the mesh a delegation is granted exactly when the log accepts its event and it may be accepted. */
  lemma DelegatedInRunExactly(b: Behavior, n: nat)
    requires b.IsRun() && n < |b.ops| && b.ops[n].DelegateOp?
    ensures b.ReplyAt(n).Delegated?
    ensures b.ReplyAt(n).delegation.Ok? <==>
            && b.envs[n].auditAccepts
            && MayBeAccepted(b.states[n].config, b.states[n].stores, b.ops[n].tenantId, b.ops[n].delegation, b.ops[n].listing, b.envs[n])
  {
    hide Lists, DelegateCheck, MayBeAccepted, ChainOk, RunOk;
    ReachableIsWellFormed(b, n);
    var s, op := b.states[n], b.ops[n];
    AcceptedWhenMayBe(s.config, s.stores, op.tenantId, op.delegation, op.listing, b.envs[n]);
  }
}
