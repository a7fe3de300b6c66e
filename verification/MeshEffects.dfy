/** What each operation of the mesh changes, logs and answers, and why it refuses. */
module MeshEffects {
  import opened Prelude
  import opened Text
  import opened Contract
  import opened Evaluator
  import opened MeshModel
  import opened MeshRuns
  import opened MeshAnswers

  // ----- The log ------------------------------------------------------------------------------------

  /** The event takes the next number whether the log accepts it or not. */
  ghost predicate Logged(j: Journal, k: Journal, env: Env, tenantId: Id, kind: AuditKind, principalId: Option<Id>,
                         delegationId: Option<Id>, runId: Option<Id>)
  {
    k == Journal(j.events + if env.auditAccepts
                            then [AuditEvent(AuditEventId(tenantId, j.sequence), tenantId, kind, principalId, delegationId, runId,
                                             None, None, env.now)]
                            else [],
                 j.sequence + 1, j.decisions)
  }

  ghost predicate KnownTenant(s: Stores, t: Id) {
    !IsBlank(t) && t in s.tenants
  }

  /** The answer to an operation that fails for an unknown tenant, else for this reason, else only when its event is
      refused; what it does it does even then. */
  function Answer<T>(known: bool, refusal: Option<DenialReason>, env: Env, value: T): Result<T, DenialReason> {
    if !known then Err(UnknownTenant)
    else if refusal.Some? then Err(refusal.value)
    else if env.auditAccepts then Ok(value) else Err(TenantMismatch)
  }

  /** Of this tenant, or why not. */
  ghost function Missing(s: Stores, tenantId: Id, id: Id): Option<DenialReason> {
    if id !in s.principals then Some(UnknownPrincipal)
    else if s.principals[id].tenantId != tenantId then Some(TenantMismatch) else None
  }

  // ----- Delegations and runs -----------------------------------------------------------------------

  /** A stored delegation of the tenant is marked revoked now, whoever holds it and whether or not it was revoked before. */
  lemma RevokeEffect(s: MeshState, t: Id, id: Id, env: Env)
    ensures var ((r, reply), known) := (Step(s, RevokeOp(t, id), env), KnownTenant(s.stores, t));
            var refusal := if known && id in s.stores.delegations && s.stores.delegations[id].tenantId == s.stores.tenants[t].tenantId
                           then None else Some(InvalidDelegation);
            && reply == Acknowledged(Answer(known, refusal, env, ()))
            && (!known || refusal.Some? ==> r == s)
            && (known && refusal.None? ==>
                  && Logged(s.journal, r.journal, env, s.stores.tenants[t].tenantId, DelegationRevoked, None, Some(id), None)
                  && r == s.(journal := r.journal, stores := s.stores.(delegations :=
                       s.stores.delegations[id := s.stores.delegations[id].(revokedAt := Some(env.now))])))
  {
  }

  /** A stored run of the tenant is marked cancelled now, whatever its status was. */
  lemma CancelEffect(s: MeshState, t: Id, id: Id, env: Env)
    ensures var ((r, reply), known) := (Step(s, CancelRunOp(t, id), env), KnownTenant(s.stores, t));
            var refusal := if known && id in s.stores.runs && s.stores.runs[id].tenantId == s.stores.tenants[t].tenantId
                           then None else Some(NoSuchRun);
            && (!known || refusal.Some? ==> r == s && reply == RunReply(Err(if known then NoSuchRun else UnknownTenant)))
            && (known && refusal.None? ==>
                  var cancelled := s.stores.runs[id].(status := RunCancelled, cancelledAt := Some(env.now));
                  && reply == RunReply(Answer(known, refusal, env, cancelled))
                  && Logged(s.journal, r.journal, env, s.stores.tenants[t].tenantId, RunCancelledEvent, Some(cancelled.agent),
                            Some(cancelled.delegationId), Some(cancelled.id))
                  && r == s.(journal := r.journal, stores := s.stores.(runs := s.stores.runs[id := cancelled])))
  {
    hide IsBlank;
  }

  /** An accepted delegation is stored, reported for its delegate, and returned. */
  lemma DelegateEffect(s: MeshState, t: Id, request: DelegationRequest, listing: seq<Delegation>, env: Env)
    ensures var ((r, reply), checked) := (Step(s, DelegateOp(t, request, listing), env),
                                          DelegateCheck(s.config, s.stores, t, request, listing, env));
            && (checked.Err? ==> r == s && reply == Delegated(Err(checked.error)))
            && (checked.Ok? ==>
                  var d := checked.value;
                  && reply == Delegated(Answer(true, None, env, d))
                  && Logged(s.journal, r.journal, env, d.tenantId, DelegationCreated, Some(d.delegate), Some(d.id), None)
                  && r == s.(journal := r.journal, stores := s.stores.(delegations := s.stores.delegations[d.id := d])))
  {
    hide DelegateCheck;
  }

  /** A created run is stored, reported and returned; its number is used up as soon as it is checked. */
  lemma CreateRunEffect(s: MeshState, t: Id, agent: Id, request: RunRequest, revision: nat, env: Env)
    ensures var ((r, reply), checked) := (Step(s, CreateRunOp(t, agent, request, revision), env),
                                          CreateRunCheck(s.stores, s.runSequence, t, agent, request, revision, env));
            && (checked.Err? ==> r == s && reply == RunReply(Err(checked.error)))
            && (checked.Ok? ==>
                  var (run, next) := (checked.value, if request.id.Some? then s.runSequence else s.runSequence + 1);
                  if run.id in s.stores.runs then r == s.(runSequence := next) && reply == RunReply(Err(NoSuchRun))
                  else
                    && reply == RunReply(Answer(true, None, env, run))
                    && Logged(s.journal, r.journal, env, run.tenantId, RunCreatedEvent, Some(run.agent), Some(run.delegationId), Some(run.id))
                    && r == s.(journal := r.journal, runSequence := next, stores := s.stores.(runs := s.stores.runs[run.id := run])))
  {
    hide CreateRunCheck;
    CheckedRunIsFor(s.stores, s.runSequence, t, agent, request, revision, env);
  }

  lemma CheckedRunIsFor(s: Stores, n: nat, t: Id, agent: Id, request: RunRequest, revision: nat, env: Env)
    ensures var checked := CreateRunCheck(s, n, t, agent, request, revision, env);
            checked.Ok? ==> checked.value.agent == agent
  {
    hide RunDelegation, NarrowsParent, GeneratedRunId, PrincipalOf, TenantOf;
  }

  /** Why a run is not created, the first reason that applies. */
  ghost function RunRefusal(s: Stores, t: Id, agent: Id, request: RunRequest, now: int): Option<DenialReason> {
    if !KnownTenant(s, t) then Some(UnknownTenant)
    else if request.capabilities == [] then Some(RunExceedsDelegation)
    else if request.expiresAt <= now then Some(RunIsExpired)
    else
      var tenantId := s.tenants[t].tenantId;
      if Missing(s, tenantId, agent).Some? then Missing(s, tenantId, agent)
      else if s.principals[agent].kind != Agent then Some(NoSuchRun)
      else if s.principals[agent].agentState == Some(Suspended) then Some(AgentSuspended)
      else if s.principals[agent].agentState != Some(Active) then Some(AgentRevoked)
      else if request.delegationId !in s.delegations then Some(DelegationMissing)
      else
        var d := s.delegations[request.delegationId];
        if d.tenantId != tenantId || d.delegate != agent then Some(InvalidDelegation)
        else if d.revokedAt.Some? then Some(RevokedDelegation)
        else if now < d.issuedAt || (d.expiresAt.Some? && d.expiresAt.value <= now) then Some(ExpiredDelegation)
        else if || (d.expiresAt.Some? && d.expiresAt.value < request.expiresAt) || !NamesTenant(request.scope, tenantId)
                || (exists c <- request.capabilities :: c !in d.capabilities) || !request.scope.IsSubsetOf(d.scope)
        then Some(RunExceedsDelegation)
        else if request.parentRunId.Some? && !RunAcceptable(s, t, agent, request, now) then Some(ParentRunScopeDenied)
        else None
  }

  lemma RunRefused(s: Stores, n: nat, t: Id, agent: Id, request: RunRequest, revision: nat, env: Env)
    ensures var r := CreateRunCheck(s, n, t, agent, request, revision, env);
            && (r.Ok? <==> RunRefusal(s, t, agent, request, env.now).None?)
            && (r.Err? ==> Some(r.error) == RunRefusal(s, t, agent, request, env.now))
  {
    hide NamesTenant, ResourceScope.IsSubsetOf, IsBlank, LiveRun, TenantScopeHolds, NarrowsParent;
    RunCreatedExactly(s, n, t, agent, request, revision, env);
    if t in s.tenants {
      NamesTenantExactly(request.scope, s.tenants[t].tenantId);
      ParentExactly(s, s.tenants[t], request, env.now);
    }
  }

  // ----- Principals ---------------------------------------------------------------------------------

  /** A stored agent of the tenant gets exactly the state asked for, reported as a suspension, a revocation, or otherwise
      like a creation. */
  lemma SetStateEffect(s: MeshState, t: Id, agent: Id, state: AgentState, env: Env)
    ensures var ((r, reply), known) := (Step(s, SetAgentStateOp(t, agent, state), env), KnownTenant(s.stores, t));
            var refusal := if known && Missing(s.stores, s.stores.tenants[t].tenantId, agent).None? && s.stores.principals[agent].kind == Agent
                           then None else Some(UnknownPrincipal);
            && reply == Acknowledged(Answer(known, refusal, env, ()))
            && (!known || refusal.Some? ==> r == s)
            && (known && refusal.None? ==>
                  && Logged(s.journal, r.journal, env, s.stores.tenants[t].tenantId,
                            match state case Suspended => AgentSuspendedEvent case Revoked => AgentRevokedEvent case _ => AgentCreatedEvent,
                            Some(agent), None, None)
                  && r == s.(journal := r.journal, stores := s.stores.(principals :=
                       s.stores.principals[agent := s.stores.principals[agent].(agentState := Some(state))])))
  {
  }

  /** The control route writes an active agent without claims, of the tenant, and no event. */
  lemma CreateAgentEffect(s: MeshState, t: Id, agent: Id, env: Env)
    ensures var (r, reply) := Step(s, CreateAgentOp(t, agent), env);
            if !KnownTenant(s.stores, t) then r == s && reply == Provisioned(Err(UnknownTenant))
            else
              var p := Principal(agent, Agent, s.stores.tenants[t].tenantId, map[], Some(Active));
              && reply == Provisioned(Ok(p))
              && r == s.(stores := s.stores.(principals := s.stores.principals[agent := p]))
  {
  }

  /** Why a sign-up is refused. */
  ghost function SignUpRefusal(s: MeshState, e: External, kind: PrincipalKind, claims: Attributes): Option<DenialReason> {
    if kind == Agent && !s.config.agents then Some(UnknownPrincipal)
    else if IsBlank(e.subject) then Some(UnknownPrincipal)
    else if kind == Agent && claims != map[] then Some(ClaimMismatch)
    else if e in s.stores.bindings then Some(UnknownPrincipal) else None
  }

  /** A sign-up writes a principal with the claims given, active if it is an agent, binds it, and opens a session. */
  lemma SignUpEffect(s: MeshState, t: Id, connector: string, subject: string, kind: PrincipalKind, claims: Attributes, sid: Id,
                     expiresAt: int, env: Env)
    ensures var ((r, reply), known) := (Step(s, SignUpOp(t, connector, subject, kind, claims, sid, expiresAt), env), KnownTenant(s.stores, t));
            if !known then r == s && reply == Provisioned(Err(UnknownTenant))
            else
              var tenantId := s.stores.tenants[t].tenantId;
              var e := External(tenantId, connector, subject);
              var p := Principal(PrincipalIdFor(e), kind, tenantId, claims, if kind == Agent then Some(Active) else None);
              && reply == Provisioned(Answer(known, SignUpRefusal(s, e, kind, claims), env, p))
              && (SignUpRefusal(s, e, kind, claims).Some? ==> r == s)
              && (SignUpRefusal(s, e, kind, claims).None? ==>
                    && Logged(s.journal, r.journal, env, tenantId, AccountLinked, Some(p.id), None, None)
                    && r == s.(journal := r.journal, stores := s.stores.(
                         principals := s.stores.principals[p.id := p], bindings := s.stores.bindings[e := p.id],
                         sessions := s.stores.sessions[sid := Session(tenantId, e, expiresAt, false)])))
  {
    hide PrincipalIdFor;
  }

  /** A further identity is bound to a stored principal of the tenant unless it is bound to another. */
  lemma LinkEffect(s: MeshState, t: Id, id: Id, connector: string, subject: string, env: Env)
    ensures var ((r, reply), known) := (Step(s, LinkOp(t, id, connector, subject), env), KnownTenant(s.stores, t));
            if !known then r == s && reply == Acknowledged(Err(UnknownTenant))
            else
              var tenantId := s.stores.tenants[t].tenantId;
              var e := External(tenantId, connector, subject);
              var refusal := if || IsBlank(subject) || Missing(s.stores, tenantId, id).Some?
                                || (e in s.stores.bindings && s.stores.bindings[e] != id) then Some(UnknownPrincipal) else None;
              && reply == Acknowledged(Answer(known, refusal, env, ()))
              && (refusal.Some? ==> r == s)
              && (refusal.None? ==>
                    && Logged(s.journal, r.journal, env, tenantId, AccountLinked, Some(id), None, None)
                    && r == s.(journal := r.journal, stores := s.stores.(bindings := s.stores.bindings[e := id])))
  {
  }

  // ----- Sessions -----------------------------------------------------------------------------------

  /** Why an identity cannot sign in: it leads to no stored principal of the tenant, or to an agent that may not act. */
  ghost function SignInRefusal(s: Stores, e: External): Option<DenialReason> {
    if IsBlank(e.subject) || e !in s.bindings || Missing(s, e.tenantId, s.bindings[e]).Some? then Some(UnknownPrincipal)
    else
      var p := s.principals[s.bindings[e]];
      if p.kind != Agent || p.agentState == Some(Active) then None
      else if p.agentState == Some(Suspended) then Some(AgentSuspended) else Some(AgentRevoked)
  }

  lemma SignInEffect(s: MeshState, t: Id, sid: Id, connector: string, subject: string, expiresAt: int, env: Env)
    ensures var ((r, reply), known) := (Step(s, SignInOp(t, sid, connector, subject, expiresAt), env), KnownTenant(s.stores, t));
            if !known then r == s && reply == Acknowledged(Err(UnknownTenant))
            else
              var tenantId := s.stores.tenants[t].tenantId;
              var e := External(tenantId, connector, subject);
              && reply == Acknowledged(Answer(known, SignInRefusal(s.stores, e), env, ()))
              && (SignInRefusal(s.stores, e).Some? ==> r == s)
              && (SignInRefusal(s.stores, e).None? ==>
                    && Logged(s.journal, r.journal, env, tenantId, LoginEvent,
                              Some(s.stores.principals[s.stores.bindings[e]].id), None, None)
                    && r == s.(journal := r.journal, stores := s.stores.(
                         sessions := s.stores.sessions[sid := Session(tenantId, e, expiresAt, false)])))
  {
  }

  lemma LogoutEffect(s: MeshState, t: Id, sid: Id, env: Env)
    ensures var ((r, reply), known) := (Step(s, LogoutOp(t, sid), env), KnownTenant(s.stores, t));
            var refusal := if sid !in s.stores.sessions then Some(InvalidSession)
                           else if known && s.stores.sessions[sid].tenantId != s.stores.tenants[t].tenantId then Some(TenantMismatch)
                           else None;
            && reply == Acknowledged(Answer(known, refusal, env, ()))
            && (!known || refusal.Some? ==> r == s)
            && (known && refusal.None? ==>
                  && Logged(s.journal, r.journal, env, s.stores.tenants[t].tenantId, SessionRevokedEvent, None, None, None)
                  && r == s.(journal := r.journal, stores := s.stores.(sessions :=
                       s.stores.sessions[sid := s.stores.sessions[sid].(revoked := true)])))
  {
  }

  /** Why a session does not resolve, the first reason that applies. */
  ghost function ResolveRefusal(config: Config, s: Stores, t: Id, sid: Id, now: int): Option<DenialReason> {
    if !KnownTenant(s, t) then Some(UnknownTenant)
    else if sid !in s.sessions then Some(InvalidSession)
    else
      var (session, tenant) := (s.sessions[sid], s.tenants[t]);
      if session.tenantId != tenant.tenantId then Some(TenantMismatch)
      else if session.revoked then Some(RevokedSession)
      else if now >= session.expiresAt then Some(ExpiredSession)
      else if session.identity !in s.bindings then Some(UnknownPrincipal)
      else if Missing(s, tenant.tenantId, s.bindings[session.identity]).Some? then
        Missing(s, tenant.tenantId, s.bindings[session.identity])
      else
        var p := s.principals[s.bindings[session.identity]];
        if p.kind == Agent && p.agentState == Some(Suspended) then Some(AgentSuspended)
        else if p.kind == Agent && p.agentState != Some(Active) then Some(AgentRevoked)
        else if !HasPolicy(config, s, tenant) then Some(PolicyNotFound)
        else if tenant.policyId in s.policies && s.policies[tenant.policyId].id != tenant.policyId then Some(TenantMismatch)
        else None
  }

  lemma ResolveRefused(s: MeshState, t: Id, sid: Id, listing: seq<Delegation>, env: Env)
    ensures var (r, reply) := Step(s, ResolveOp(t, sid, listing), env);
            && r == s && reply.Resolved?
            && (reply.context.Ok? <==> ResolveRefusal(s.config, s.stores, t, sid, env.now).None?)
            && (reply.context.Err? ==> Some(reply.context.error) == ResolveRefusal(s.config, s.stores, t, sid, env.now))
  {
    hide RuleGrants, AddDelegations, ActingDelegation;
  }

  // ----- Decisions ----------------------------------------------------------------------------------

  /** A decision is reported under the next number with who asked for what, under which delegation and run, and why it was
      denied, and is remembered among the last hundred. */
  ghost predicate Recorded(j: Journal, k: Journal, context: RuntimeContext, run: Option<AgentRun>, capability: Capability,
                           d: AuthorizationDecision, revision: nat, env: Env)
  {
    var (id, tenantId, who) := (AuditEventId(context.tenant.tenantId, j.sequence), context.tenant.tenantId, context.principal.id);
    var shown := if d.Allow? && d.grant.delegationId.Some? then d.grant.delegationId
                 else if context.delegation.Some? then Some(context.delegation.value.id) else None;
    var all := j.decisions + [Evidence(d, who, tenantId, capability, run, revision, env.now)];
    && d.auditEventId == Some(id) && k.sequence == j.sequence + 1
    && k.events == j.events + [AuditEvent(id, tenantId, if d.Allow? then Granted else Denied, Some(who), shown,
                                          if run.Some? then Some(run.value.id) else None, Some(capability),
                                          if d.Deny? then Some(d.reason) else None, env.now)]
    && k.decisions == if |all| <= 100 then all else all[1..]
  }

  /** Only the number is used up. */
  ghost predicate Unrecorded(j: Journal, k: Journal, d: AuthorizationDecision) {
    k == j.(sequence := j.sequence + 1) && d == Deny(AuditUnavailable, None, None, None, None, [], [], None)
  }

  lemma RecordEffect(j: Journal, context: RuntimeContext, capability: Capability, d: AuthorizationDecision, revision: nat, env: Env)
    ensures var (k, r) := Record(j, context, capability, d, revision, env);
            if env.auditAccepts then
              Recorded(j, k, context, context.run, capability, r, revision, env) && r == d.(auditEventId := r.auditEventId)
            else Unrecorded(j, k, r)
  {
  }

  /** A decision on a capability or a request touches the journal alone, and not even that when there is no policy. */
  lemma DecideEffect(s: MeshState, op: Op, env: Env)
    requires op.AuthorizeOp? || op.AuthorizeRequestOp?
    ensures var (r, reply) := Step(s, op, env);
            && reply.Decided? && r == s.(journal := r.journal)
            && if !HasPolicy(s.config, s.stores, op.context.tenant) then
                 r == s && reply.decision == Deny(PolicyNotFound, None, None, None, None, [], [], None)
               else if !env.auditAccepts then Unrecorded(s.journal, r.journal, reply.decision)
               else Recorded(s.journal, r.journal, op.context, op.context.run,
                             if op.AuthorizeOp? then op.capability else op.request.capability, reply.decision, op.revision, env)
  {
    hide Recorded, Unrecorded, Record, CapabilityDecision, RequestDecision, PickDelegation, PolicyOf;
    var policy := PolicyOf(s.config, s.stores, op.context.tenant);
    PolicyIs(s.config, s.stores, op.context.tenant);
    if policy.Some? {
      match op {
        case AuthorizeOp(context, capability, listing, revision) =>
          RecordEffect(s.journal, context, capability,
                       CapabilityDecision(policy, Some(context.principal), Some(context.tenant),
                                          PickDelegation(listing, capability, env.now), capability, env.now, env.clock), revision, env);
        case AuthorizeRequestOp(context, request, attributes, listing, revision) =>
          RecordEffect(s.journal, context, request.capability,
                       RequestDecision(policy, Some(context.principal), Some(context.tenant),
                                       PickDelegation(listing, request.capability, env.now), request, attributes, env.now, env.clock),
                       revision, env);
        case _ =>
      }
    }
  }

  /** Why a run may not be used for a request, the first reason that applies. */
  ghost function RunReason(s: Stores, context: RuntimeContext, id: Id, request: AuthorizationRequest,
                           attributes: Option<ResourceAttributes>, now: int): Option<DenialReason>
  {
    if id !in s.runs || s.runs[id].tenantId != context.tenant.tenantId then Some(NoSuchRun)
    else if s.runs[id].status in {RunCancelled, RunCompleted, RunFailed} then Some(CancelledRun)
    else if s.runs[id].status == RunExpired || s.runs[id].expiresAt <= now then Some(RunIsExpired)
    else if s.runs[id].agent != context.principal.id then Some(NoSuchRun)
    else if request.capability in s.runs[id].capabilities && ScopeMatches(s.runs[id].scope, request, attributes) then None
    else Some(RunScopeDenied)
  }

  /** A request under a run that may not be used is denied for that reason, with the tenant's policy and, when the run is live,
      the run on record; any other is decided like the request alone, with the run on record. */
  lemma DecideUnderRunEffect(s: MeshState, op: Op, env: Env)
    requires op.AuthorizeRunOp?
    ensures var ((r, reply), reason) := (Step(s, op, env), RunReason(s.stores, op.context, op.runId, op.request, op.attributes, env.now));
            if reason.None? then
              (r, reply) == Step(s, AuthorizeRequestOp(op.context.(run := Some(s.stores.runs[op.runId])), op.request, op.attributes,
                                                       op.listing, op.revision), env)
            else
              && reply.Decided? && r == s.(journal := r.journal)
              && if !env.auditAccepts then Unrecorded(s.journal, r.journal, reply.decision)
                 else
                   var policyId := if op.context.tenant.policyId in s.stores.policies
                                   then Some(s.stores.policies[op.context.tenant.policyId].id)
                                   else if s.config.policies != [] then Some(op.context.tenant.policyId) else None;
                   var run := if LiveRun(s.stores, op.context.tenant.tenantId, op.runId, env.now)
                              then Some(s.stores.runs[op.runId]) else op.context.run;
                   && reply.decision == Deny(reason.value, Some(op.request.capability), op.request.resource, Some(op.request.action),
                                             policyId, [], [], reply.decision.auditEventId)
                   && Recorded(s.journal, r.journal, op.context, run, op.request.capability, reply.decision, op.revision, env)
  {
    hide Recorded, Unrecorded, Record, AuthorizeRequest, PolicyOf, ScopeMatches;
    var denial := RunDenial(s.stores, op.context, op.runId, op.request, op.attributes, env.now);
    if denial.Some? {
      var (reason, run) := denial.value;
      var context := if run.Some? then op.context.(run := run) else op.context;
      var policy := PolicyOf(s.config, s.stores, op.context.tenant);
      PolicyIs(s.config, s.stores, op.context.tenant);
      RecordEffect(s.journal, context, op.request.capability, DenyFor(op.request, reason, policy, []), op.revision, env);
      RecordedAlike(s.journal, Step(s, op, env).0.journal, context, op.context, context.run, op.request.capability,
                    Step(s, op, env).1.decision, op.revision, env);
    }
  }

  lemma RecordedAlike(j: Journal, k: Journal, a: RuntimeContext, b: RuntimeContext, run: Option<AgentRun>, capability: Capability,
                      d: AuthorizationDecision, revision: nat, env: Env)
    requires a.tenant == b.tenant && a.principal == b.principal && a.delegation == b.delegation
    ensures Recorded(j, k, a, run, capability, d, revision, env) <==> Recorded(j, k, b, run, capability, d, revision, env)
  {
  }
}
