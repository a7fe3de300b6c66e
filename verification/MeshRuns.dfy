/** Runs of the authority mesh: any sequence of operations, and what every state they reach satisfies. */
module MeshRuns {
  import opened Prelude
  import opened Contract
  import opened Evaluator
  import opened MeshModel

  datatype Op =
    | PutPolicy(policy: Policy)
    | SignUpOp(tenantId: Id, connector: string, subject: string, kind: PrincipalKind, claims: Attributes, sessionId: Id,
               expiresAt: int)
    | LinkOp(tenantId: Id, principalId: Id, connector: string, subject: string)
    | CreateAgentOp(tenantId: Id, agent: Id)
    | SignInOp(tenantId: Id, sessionId: Id, connector: string, subject: string, expiresAt: int)
    | LogoutOp(tenantId: Id, sessionId: Id)
    | ResolveOp(tenantId: Id, sessionId: Id, listing: seq<Delegation>)
    | DelegateOp(tenantId: Id, delegation: DelegationRequest, listing: seq<Delegation>)
    | RevokeOp(tenantId: Id, delegationId: Id)
    | CreateRunOp(tenantId: Id, agent: Id, run: RunRequest, revision: nat)
    | CancelRunOp(tenantId: Id, runId: Id)
    | SetAgentStateOp(tenantId: Id, agent: Id, state: AgentState)
    | AuthorizeOp(context: RuntimeContext, capability: Capability, listing: seq<Delegation>, revision: nat)
    | AuthorizeRequestOp(context: RuntimeContext, request: AuthorizationRequest,
                         attributes: Option<ResourceAttributes>, listing: seq<Delegation>, revision: nat)
    | AuthorizeRunOp(context: RuntimeContext, runId: Id, request: AuthorizationRequest,
                     attributes: Option<ResourceAttributes>, listing: seq<Delegation>, revision: nat)

  datatype Reply =
    | Done
    | Provisioned(principal: Result<Principal, DenialReason>)
    | Acknowledged(outcome: Result<(), DenialReason>)
    | Resolved(context: Result<RuntimeContext, DenialReason>)
    | Delegated(delegation: Result<Delegation, DenialReason>)
    | RunReply(run: Result<AgentRun, DenialReason>)
    | Decided(decision: AuthorizationDecision)

  function Step(s: MeshState, op: Op, env: Env): (MeshState, Reply) {
    match op
    case PutPolicy(policy) => (s.(stores := s.stores.(policies := s.stores.policies[policy.id := policy])), Done)
    case SignUpOp(t, connector, subject, kind, claims, sid, expires) =>
      var (s', r) := Commit(s, SignUp(s.config, s.stores, t, connector, subject, kind, claims, sid, expires), env);
      (s', Provisioned(r))
    case LinkOp(t, id, connector, subject) =>
      var (s', r) := Commit(s, LinkAccount(s.stores, t, id, connector, subject), env); (s', Acknowledged(r))
    case CreateAgentOp(t, agent) =>
      (match CreateAgent(s.stores, t, agent)
       case Err(e) => (s, Provisioned(Err(e)))
       case Ok((stores, principal)) => (s.(stores := stores), Provisioned(Ok(principal))))
    case SignInOp(t, sid, connector, subject, expires) =>
      var (s', r) := Commit(s, SignIn(s.stores, t, sid, connector, subject, expires), env); (s', Acknowledged(r))
    case LogoutOp(t, sid) => var (s', r) := Commit(s, Logout(s.stores, t, sid), env); (s', Acknowledged(r))
    case ResolveOp(t, sid, listing) => (s, Resolved(ResolveSession(s.config, s.stores, t, sid, listing, env)))
    case DelegateOp(t, request, listing) =>
      var (s', r) := Commit(s, Delegate(s.config, s.stores, t, request, listing, env), env); (s', Delegated(r))
    case RevokeOp(t, id) => var (s', r) := Commit(s, RevokeDelegation(s.stores, t, id, env), env); (s', Acknowledged(r))
    case CreateRunOp(t, agent, request, revision) =>
      var (change, sequence) := CreateRun(s.stores, s.runSequence, t, agent, request, revision, env);
      var (s', r) := Commit(s, change, env); (s'.(runSequence := sequence), RunReply(r))
    case CancelRunOp(t, id) => var (s', r) := Commit(s, CancelRun(s.stores, t, id, env), env); (s', RunReply(r))
    case SetAgentStateOp(t, agent, state) =>
      var (s', r) := Commit(s, SetAgentState(s.stores, t, agent, state), env); (s', Acknowledged(r))
    case AuthorizeOp(context, capability, listing, revision) =>
      var (j, d) := AuthorizeCapability(s, context, capability, listing, revision, env);
      (s.(journal := j), Decided(d))
    case AuthorizeRequestOp(context, request, attributes, listing, revision) =>
      var (j, d) := AuthorizeRequest(s, context, request, attributes, listing, revision, env);
      (s.(journal := j), Decided(d))
    case AuthorizeRunOp(context, runId, request, attributes, listing, revision) =>
      var (j, d) := AuthorizeRun(s, context, runId, request, attributes, listing, revision, env);
      (s.(journal := j), Decided(d))
  }

  /** Listings come from the store, and agents are only ever stopped, never re-activated. */
  ghost predicate Admissible(s: Stores, op: Op) {
    match op
    case DelegateOp(t, request, listing) => t in s.tenants ==> Lists(listing, s, s.tenants[t].tenantId, request.delegator)
    case SetAgentStateOp(_, _, state) => state in {Suspended, Revoked, Retired}
    case AuthorizeOp(c, _, listing, _) => Lists(listing, s, c.tenant.tenantId, c.principal.id)
    case AuthorizeRequestOp(c, _, _, listing, _) => Lists(listing, s, c.tenant.tenantId, c.principal.id)
    case AuthorizeRunOp(c, _, _, _, listing, _) => Lists(listing, s, c.tenant.tenantId, c.principal.id)
    case _ => true
  }

  ghost predicate Initial(s: MeshState) {
    && s.stores.delegations == map[] && s.stores.runs == map[] && s.stores.sessions == map[]
    && s.journal == Journal([], 0, [])
    && (forall id <- s.stores.principals :: s.stores.principals[id].id == id)
  }

  datatype Behavior = Behavior(states: seq<MeshState>, ops: seq<Op>, envs: seq<Env>)
  {
    ghost predicate IsRun() {
      && |ops| == |envs| && |states| == |ops| + 1
      && Initial(states[0])
      && forall i :: 0 <= i < |ops| ==>
           Admissible(states[i].stores, ops[i]) && Step(states[i], ops[i], envs[i]).0 == states[i + 1]
    }

    function ReplyAt(i: nat): Reply
      requires i < |ops| && |ops| == |envs| && |states| == |ops| + 1
    {
      Step(states[i], ops[i], envs[i]).1
    }
  }

  // ----- What never goes back -------------------------------------------------------------------

  ghost predicate DelegationGrows(a: Delegation, b: Delegation) {
    b == a.(revokedAt := b.revokedAt) && (a.revokedAt.Some? ==> b.revokedAt.Some?)
  }

  ghost predicate RunGrows(a: AgentRun, b: AgentRun) {
    b == a.(status := b.status, cancelledAt := b.cancelledAt) && (a.status == RunCancelled ==> b.status == RunCancelled)
  }

  /** Nothing is forgotten, fixed fields of delegations and runs stay fixed, revoked and cancelled stay so, and an
      external identity stays bound to its one principal. */
  ghost predicate Grows(s: Stores, t: Stores) {
    && s.tenants == t.tenants
    && (forall id <- s.delegations :: id in t.delegations && DelegationGrows(s.delegations[id], t.delegations[id]))
    && (forall id <- s.runs :: id in t.runs && RunGrows(s.runs[id], t.runs[id]))
    && (forall id <- s.principals :: id in t.principals)
    && (forall e <- s.bindings :: e in t.bindings && t.bindings[e] == s.bindings[e])
  }

  lemma DelegateGrows(config: Config, s: Stores, t: Id, request: DelegationRequest, listing: seq<Delegation>, env: Env)
    ensures var r := Delegate(config, s, t, request, listing, env); r.Ok? ==> Grows(s, r.value.stores)
  {
    hide Scan, Envelope, PolicyOf;
  }

  lemma CreateRunGrows(s: Stores, n: nat, t: Id, agent: Id, request: RunRequest, revision: nat, env: Env)
    ensures var r := CreateRun(s, n, t, agent, request, revision, env).0; r.Ok? ==> Grows(s, r.value.stores)
  {
    hide CreateRunCheck;
  }

  lemma RevokeGrows(s: Stores, t: Id, id: Id, env: Env)
    ensures var r := RevokeDelegation(s, t, id, env); r.Ok? ==> Grows(s, r.value.stores)
  {
  }

  lemma CancelGrows(s: Stores, t: Id, id: Id, env: Env)
    ensures var r := CancelRun(s, t, id, env); r.Ok? ==> Grows(s, r.value.stores)
  {
  }

  lemma SignUpGrows(config: Config, s: Stores, t: Id, connector: string, subject: string, kind: PrincipalKind,
                    claims: Attributes, session: Id, expiresAt: int)
    ensures var r := SignUp(config, s, t, connector, subject, kind, claims, session, expiresAt);
            r.Ok? ==> Grows(s, r.value.stores)
  {
    hide TenantOf, PrincipalIdFor;
  }

  lemma LinkGrows(s: Stores, t: Id, id: Id, connector: string, subject: string)
    ensures var r := LinkAccount(s, t, id, connector, subject); r.Ok? ==> Grows(s, r.value.stores)
  {
    hide TenantOf;
  }

  lemma StoppingGrows(s: Stores, t: Id, id: Id, state: AgentState)
    requires state in {Suspended, Revoked, Retired}
    ensures var r := SetAgentState(s, t, id, state); r.Ok? ==> Grows(s, r.value.stores)
  {
  }

  lemma CreateAgentGrows(s: Stores, t: Id, agent: Id)
    ensures var r := CreateAgent(s, t, agent); r.Ok? ==> Grows(s, r.value.0)
  {
  }

  lemma SessionsGrow(s: Stores, t: Id, session: Id, connector: string, subject: string, expiresAt: int)
    ensures var r := SignIn(s, t, session, connector, subject, expiresAt); r.Ok? ==> Grows(s, r.value.stores)
    ensures var r := Logout(s, t, session); r.Ok? ==> Grows(s, r.value.stores)
  {
  }

  lemma StepGrows(s: MeshState, op: Op, env: Env)
    requires Admissible(s.stores, op)
    ensures Grows(s.stores, Step(s, op, env).0.stores)
  {
    hide AuthorizeCapability, AuthorizeRequest, AuthorizeRun, ResolveSession, Delegate, CreateRun, RevokeDelegation,
         CancelRun, SignUp, LinkAccount, SetAgentState, Append, CreateAgent, SignIn, Logout;
    match op {
      case DelegateOp(t, request, listing) => DelegateGrows(s.config, s.stores, t, request, listing, env);
      case CreateRunOp(t, agent, request, revision) =>
        CreateRunGrows(s.stores, s.runSequence, t, agent, request, revision, env);
      case SignUpOp(t, connector, subject, kind, claims, session, expiresAt) =>
        SignUpGrows(s.config, s.stores, t, connector, subject, kind, claims, session, expiresAt);
      case LinkOp(t, id, connector, subject) => LinkGrows(s.stores, t, id, connector, subject);
      case RevokeOp(t, id) => RevokeGrows(s.stores, t, id, env);
      case CancelRunOp(t, id) => CancelGrows(s.stores, t, id, env);
      case SetAgentStateOp(t, id, state) => StoppingGrows(s.stores, t, id, state);
      case CreateAgentOp(t, id) => CreateAgentGrows(s.stores, t, id);
      case SignInOp(t, session, connector, subject, expiresAt) =>
        SessionsGrow(s.stores, t, session, connector, subject, expiresAt);
      case LogoutOp(t, session) => SessionsGrow(s.stores, t, session, "", "", 0);
      case _ =>
    }
  }

  lemma GrowsTransitive(s: Stores, t: Stores, u: Stores)
    requires Grows(s, t) && Grows(t, u)
    ensures Grows(s, u)
  {
  }

  lemma {:induction false} StatesGrow(b: Behavior, i: nat, j: nat)
    requires b.IsRun() && i <= j < |b.states|
    ensures Grows(b.states[i].stores, b.states[j].stores)
  {
    hide Step;
    if i < j {
      StatesGrow(b, i, j - 1);
      StepGrows(b.states[j - 1], b.ops[j - 1], b.envs[j - 1]);
      GrowsTransitive(b.states[i].stores, b.states[j - 1].stores, b.states[j].stores);
    }
  }
}
