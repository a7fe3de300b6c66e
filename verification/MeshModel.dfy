/** What each operation of the authority mesh does to its stores, as functions of the state. */
module MeshModel {
  import opened Prelude
  import opened Text
  import opened Contract
  import opened Evaluator
  import opened PolicyCompiler

  datatype DelegationRequest = DelegationRequest(
    id: Id, delegator: Id, delegate: Id, capabilities: seq<Capability>, scope: ResourceScope,
    issuedAt: int, expiresAt: Option<int>)

  datatype RunRequest = RunRequest(
    id: Option<Id>, taskId: Id, delegationId: Id, parentRunId: Option<Id>, capabilities: seq<Capability>,
    scope: ResourceScope, expiresAt: int)

  datatype AuditKind =
    | LoginEvent | SessionRevokedEvent | AccountLinked | Granted | Denied | DelegationCreated | DelegationRevoked
    | AgentCreatedEvent | AgentSuspendedEvent | AgentRevokedEvent | RunCreatedEvent | RunCancelledEvent

  datatype AuditEvent = AuditEvent(
    id: AuditEventId, tenantId: Id, kind: AuditKind, principalId: Option<Id>, delegationId: Option<Id>,
    runId: Option<Id>, capability: Option<Capability>, reason: Option<DenialReason>, timestamp: int)

  datatype RuntimeContext = RuntimeContext(
    principal: Principal, tenant: TenantContext, sessionId: Option<Id>, delegation: Option<Delegation>,
    run: Option<AgentRun>)

  /** An entry of the in-memory decision window. */
  datatype Evidence = Evidence(
    decision: AuthorizationDecision, principal: Id, tenantId: Id, capability: Capability,
    run: Option<AgentRun>, authorityRevision: nat, timestamp: int)

  /** An identity a connector has proven to a tenant. */
  datatype External = External(tenantId: Id, connector: string, subject: string)

  datatype Session = Session(tenantId: Id, identity: External, expiresAt: int, revoked: bool)

  /** The durable stores. */
  datatype Stores = Stores(
    tenants: map<Id, TenantContext>, policies: map<Id, Policy>, principals: map<Id, Principal>,
    bindings: map<External, Id>, sessions: map<Id, Session>, delegations: map<Id, Delegation>, runs: map<Id, AgentRun>)

  /** The audit log, the event counter, and the in-memory decision window. */
  datatype Journal = Journal(events: seq<AuditEvent>, sequence: nat, decisions: seq<Evidence>)

  datatype Config = Config(agents: bool, policies: seq<Declaration.PolicyDef>)

  datatype MeshState = MeshState(config: Config, stores: Stores, journal: Journal, runSequence: nat)

  /** What an operation takes from outside: the caller's time, the system clock read by time-bound
      conditions, and whether the audit log accepts the event. */
  datatype Env = Env(now: int, clock: Option<int>, auditAccepts: bool)

  // ----- Store reads ----------------------------------------------------------------------------

  function TenantOf(s: Stores, tenantId: Id): Result<TenantContext, DenialReason> {
    if IsBlank(tenantId) || tenantId !in s.tenants then Err(UnknownTenant) else Ok(s.tenants[tenantId])
  }

  function PrincipalOf(s: Stores, tenant: TenantContext, id: Id): Result<Principal, DenialReason> {
    if id !in s.principals then Err(UnknownPrincipal)
    else if s.principals[id].tenantId != tenant.tenantId then Err(TenantMismatch)
    else Ok(s.principals[id])
  }

  function PolicyOf(config: Config, s: Stores, tenant: TenantContext): Option<Policy> {
    if tenant.policyId in s.policies then Some(s.policies[tenant.policyId])
    else CompilePolicy(config.policies, tenant)
  }

  /** Why a principal may not act: only an active agent may. */
  function Unusable(p: Principal): Option<DenialReason> {
    if p.kind != Agent || p.agentState == Some(Active) then None
    else if p.agentState == Some(Suspended) then Some(AgentSuspended)
    else Some(AgentRevoked)
  }

  /** `listing` is the store's answer to "delegations for this delegate", in some order. */
  ghost predicate Lists(listing: seq<Delegation>, s: Stores, tenantId: Id, delegate: Id) {
    && (forall d <- listing ::
          d.id in s.delegations && s.delegations[d.id] == d && d.tenantId == tenantId && d.delegate == delegate)
    && (forall id <- s.delegations ::
          s.delegations[id].tenantId == tenantId && s.delegations[id].delegate == delegate ==> s.delegations[id] in listing)
  }

  // ----- Audit ----------------------------------------------------------------------------------

  /** What an event says beyond its id, tenant and time. */
  datatype Note = Note(kind: AuditKind, principalId: Option<Id>, delegationId: Option<Id>, runId: Option<Id>,
                       capability: Option<Capability>, reason: Option<DenialReason>)

  function Append(j: Journal, tenantId: Id, note: Note, env: Env): Journal {
    var event := EventFor(tenantId, note, j.sequence, env.now);
    j.(sequence := j.sequence + 1, events := if env.auditAccepts then j.events + [event] else j.events)
  }

  /** A change to the stores together with the event that reports it. */
  datatype Change<T> = Change(stores: Stores, tenantId: Id, note: Note, value: T)

  /** Stores first, audit second: a change whose event is refused has happened, but is reported as failed. */
  function Commit<T>(s: MeshState, change: Result<Change<T>, DenialReason>, env: Env)
    : (MeshState, Result<T, DenialReason>)
  {
    match change
    case Err(e) => (s, Err(e))
    case Ok(c) =>
      (s.(stores := c.stores, journal := Append(s.journal, c.tenantId, c.note, env)),
       if env.auditAccepts then Ok(c.value) else Err(TenantMismatch))
  }

  // ----- Delegations ----------------------------------------------------------------------------

  function ScanStep(kind: PrincipalKind, held: seq<GrantedCapability>, listing: seq<Delegation>,
                    scope: ResourceScope, chain: seq<Id>, capability: Capability, now: int)
    : Result<seq<Id>, DenialReason>
  {
    if GrantFor(held, capability).None? then Err(DelegationExceedsAuthority)
    else if kind != Agent then Ok(chain)
    else match IndexWhere(listing, (d: Delegation) => Carries(d, capability, now))
      case None => Err(DelegationExceedsAuthority)
      case Some(i) =>
        if !scope.IsSubsetOf(listing[i].scope) then Err(DelegationScopeDenied)
        else Ok(if chain == [] then listing[i].chain + [listing[i].id] else chain)
  }

  /** Checks the first `n` requested capabilities and accumulates the chain to record. */
  function Scan(kind: PrincipalKind, held: seq<GrantedCapability>, listing: seq<Delegation>,
                request: DelegationRequest, now: int, n: nat): Result<seq<Id>, DenialReason>
    requires n <= |request.capabilities|
  {
    if n == 0 then Ok([])
    else match Scan(kind, held, listing, request, now, n - 1)
      case Err(e) => Err(e)
      case Ok(chain) => ScanStep(kind, held, listing, request.scope, chain, request.capabilities[n - 1], now)
  }

  predicate ExpiresTooEarly(request: DelegationRequest, now: int) {
    request.expiresAt.Some? && (request.expiresAt.value <= request.issuedAt || request.expiresAt.value <= now)
  }

  /** The delegation that would be stored, or why not. */
  function DelegateCheck(config: Config, s: Stores, tenantId: Id, request: DelegationRequest,
                         listing: seq<Delegation>, env: Env): Result<Delegation, DenialReason>
  {
    match TenantOf(s, tenantId)
    case Err(e) => Err(e)
    case Ok(tenant) =>
      if !config.agents || request.capabilities == [] || ExpiresTooEarly(request, env.now)
      then Err(InvalidDelegation)
      else match PrincipalOf(s, tenant, request.delegator)
        case Err(e) => Err(e)
        case Ok(delegator) =>
          match PrincipalOf(s, tenant, request.delegate)
          case Err(e) => Err(e)
          case Ok(delegate) =>
            if delegate.kind == Human then Err(InvalidDelegation)
            else if Unusable(delegate).Some? then Err(Unusable(delegate).value)
            else match PolicyOf(config, s, tenant)
              case None => Err(PolicyNotFound)
              case Some(policy) =>
                match Envelope(policy, delegator, tenant, listing, env.now, env.clock)
                case Err(_) => Err(PolicyNotFound)
                case Ok(held) =>
                  match Scan(delegator.kind, held, listing, request, env.now, |request.capabilities|)
                  case Err(e) => Err(e)
                  case Ok(chain) =>
                    if request.delegator == request.delegate || request.id in s.delegations then Err(InvalidDelegation)
                    else Ok(Delegation(request.id, request.delegator, request.delegate, tenant.tenantId,
                                       request.capabilities, request.scope, request.issuedAt, request.expiresAt,
                                       None, chain))
  }

  function Delegate(config: Config, s: Stores, tenantId: Id, request: DelegationRequest, listing: seq<Delegation>,
                    env: Env): Result<Change<Delegation>, DenialReason>
  {
    match DelegateCheck(config, s, tenantId, request, listing, env)
    case Err(e) => Err(e)
    case Ok(d) =>
      Ok(Change(s.(delegations := s.delegations[d.id := d]), d.tenantId,
                Note(DelegationCreated, Some(d.delegate), Some(d.id), None, None, None), d))
  }

  function RevokeDelegation(s: Stores, tenantId: Id, id: Id, env: Env): Result<Change<()>, DenialReason> {
    match TenantOf(s, tenantId)
    case Err(e) => Err(e)
    case Ok(tenant) =>
      if id !in s.delegations || s.delegations[id].tenantId != tenant.tenantId then Err(InvalidDelegation)
      else
        var revoked := s.delegations[id].(revokedAt := Some(env.now));
        Ok(Change(s.(delegations := s.delegations[id := revoked]), tenant.tenantId,
                  Note(DelegationRevoked, None, Some(id), None, None, None), ()))
  }

  // ----- Runs -----------------------------------------------------------------------------------

  function CheckedRun(s: Stores, tenant: TenantContext, runId: Id, now: int): Result<AgentRun, DenialReason> {
    if runId !in s.runs || s.runs[runId].tenantId != tenant.tenantId then Err(NoSuchRun)
    else
      var run := s.runs[runId];
      match run.status
      case RunCancelled => Err(CancelledRun)
      case RunExpired => Err(RunIsExpired)
      case RunCompleted => Err(CancelledRun)
      case RunFailed => Err(CancelledRun)
      case RunActive => if now >= run.expiresAt then Err(RunIsExpired) else Ok(run)
  }

  /** Only the first of the two tenant keys is looked at. */
  predicate TenantScopeHolds(scope: ResourceScope, tenantId: Id) {
    if "tenant" in scope.attributes then MatchesTenant(scope.attributes["tenant"], tenantId)
    else "tenant_id" in scope.attributes ==> MatchesTenant(scope.attributes["tenant_id"], tenantId)
  }

  /** The delegation a run may be created under, or why not. */
  function RunDelegation(s: Stores, tenant: TenantContext, agentId: Id, request: RunRequest, now: int)
    : Result<Delegation, DenialReason>
  {
    if request.delegationId !in s.delegations then Err(DelegationMissing)
    else
      var d := s.delegations[request.delegationId];
      if d.tenantId != tenant.tenantId || d.delegate != agentId then Err(InvalidDelegation)
      else if d.revokedAt.Some? then Err(RevokedDelegation)
      else if !d.IsValidAt(now) then Err(ExpiredDelegation)
      else if || (d.expiresAt.Some? && request.expiresAt > d.expiresAt.value)
              || (exists c <- request.capabilities :: c !in d.capabilities)
              || !TenantScopeHolds(request.scope, tenant.tenantId)
              || !request.scope.IsSubsetOf(d.scope)
      then Err(RunExceedsDelegation)
      else Ok(d)
  }

  predicate NarrowsParent(s: Stores, tenant: TenantContext, request: RunRequest, now: int) {
    request.parentRunId.Some? ==>
      var parent := CheckedRun(s, tenant, request.parentRunId.value, now);
      && parent.Ok?
      && (forall c <- request.capabilities :: c in parent.value.capabilities)
      && request.scope.IsSubsetOf(parent.value.scope)
      && request.expiresAt <= parent.value.expiresAt
  }

  /** The run that would be stored, or why not. */
  function CreateRunCheck(s: Stores, sequence: nat, tenantId: Id, agentId: Id, request: RunRequest, revision: nat,
                          env: Env): Result<AgentRun, DenialReason>
  {
    match TenantOf(s, tenantId)
    case Err(e) => Err(e)
    case Ok(tenant) =>
      if request.capabilities == [] then Err(RunExceedsDelegation)
      else if request.expiresAt <= env.now then Err(RunIsExpired)
      else match PrincipalOf(s, tenant, agentId)
        case Err(e) => Err(e)
        case Ok(agent) =>
          if agent.kind != Agent then Err(NoSuchRun)
          else if Unusable(agent).Some? then Err(Unusable(agent).value)
          else match RunDelegation(s, tenant, agentId, request, env.now)
            case Err(e) => Err(e)
            case Ok(d) =>
              if !NarrowsParent(s, tenant, request, env.now) then Err(ParentRunScopeDenied)
              else Ok(AgentRun(if request.id.Some? then request.id.value else GeneratedRunId(tenant.tenantId, sequence),
                               tenant.tenantId, agentId, d.delegator, d.id, d.chain + [d.id], request.taskId,
                               request.parentRunId, env.now, request.expiresAt, RunActive, revision,
                               request.capabilities, request.scope, None))
  }

  /** The text that identifies a generated run. */
  function GeneratedRunId(tenantId: Id, sequence: nat): Id {
    "run_" + tenantId + "|" + Decimal(sequence)
  }

  /** Also says whether the run counter was used, which it is even when the id turns out to be taken. */
  function CreateRun(s: Stores, sequence: nat, tenantId: Id, agentId: Id, request: RunRequest, revision: nat, env: Env)
    : (Result<Change<AgentRun>, DenialReason>, nat)
  {
    match CreateRunCheck(s, sequence, tenantId, agentId, request, revision, env)
    case Err(e) => (Err(e), sequence)
    case Ok(run) =>
      (if run.id in s.runs then Err(NoSuchRun)
       else Ok(Change(s.(runs := s.runs[run.id := run]), run.tenantId,
                      Note(RunCreatedEvent, Some(agentId), Some(run.delegationId), Some(run.id), None, None), run)),
       if request.id.Some? then sequence else sequence + 1)
  }

  function CancelRun(s: Stores, tenantId: Id, runId: Id, env: Env): Result<Change<AgentRun>, DenialReason> {
    match TenantOf(s, tenantId)
    case Err(e) => Err(e)
    case Ok(tenant) =>
      if runId !in s.runs || s.runs[runId].tenantId != tenant.tenantId then Err(NoSuchRun)
      else
        var run := s.runs[runId].(status := RunCancelled, cancelledAt := Some(env.now));
        Ok(Change(s.(runs := s.runs[runId := run]), tenant.tenantId,
                  Note(RunCancelledEvent, Some(run.agent), Some(run.delegationId), Some(run.id), None, None), run))
  }

  // ----- Principals and sessions ----------------------------------------------------------------

  /** Suspending, revoking and retiring an agent. */
  function SetAgentState(s: Stores, tenantId: Id, agent: Id, state: AgentState): Result<Change<()>, DenialReason> {
    match TenantOf(s, tenantId)
    case Err(e) => Err(e)
    case Ok(tenant) =>
      if || agent !in s.principals
         || s.principals[agent].tenantId != tenant.tenantId
         || s.principals[agent].kind != Agent
      then Err(UnknownPrincipal)
      else
        var changed := s.principals[agent].(agentState := Some(state));
        var kind := if state == Suspended then AgentSuspendedEvent
                    else if state == Revoked then AgentRevokedEvent else AgentCreatedEvent;
        Ok(Change(s.(principals := s.principals[agent := changed]), tenant.tenantId,
                  Note(kind, Some(agent), None, None, None, None), ()))
  }

  /** The control route that creates an agent writes it straight into the store: active, whatever principal was
      there under its id, and without an event. */
  function CreateAgent(s: Stores, tenantId: Id, agent: Id): Result<(Stores, Principal), DenialReason> {
    match TenantOf(s, tenantId)
    case Err(e) => Err(e)
    case Ok(tenant) =>
      var principal := Principal(agent, Agent, tenant.tenantId, map[], Some(Active));
      Ok((s.(principals := s.principals[agent := principal]), principal))
  }

  /** The text that identifies the principal of an external identity. */
  function PrincipalIdFor(e: External): Id {
    "prn_" + e.tenantId + "|" + e.connector + "|" + e.subject
  }

  /** Registering a principal for an external identity and opening its first session. Only an identity that is
      bound already is refused; whatever principal is stored under the id is overwritten. */
  function SignUp(config: Config, s: Stores, tenantId: Id, connector: string, subject: string, kind: PrincipalKind,
                  claims: Attributes, sessionId: Id, expiresAt: int): Result<Change<Principal>, DenialReason>
  {
    match TenantOf(s, tenantId)
    case Err(e) => Err(e)
    case Ok(tenant) =>
      var external := External(tenant.tenantId, connector, subject);
      if kind == Agent && !config.agents then Err(UnknownPrincipal)
      else if IsBlank(subject) then Err(UnknownPrincipal)
      else if kind == Agent && claims != map[] then Err(ClaimMismatch)
      else if external in s.bindings then Err(UnknownPrincipal)
      else
        var id := PrincipalIdFor(external);
        var p := Principal(id, kind, tenant.tenantId, claims, if kind == Agent then Some(Active) else None);
        Ok(Change(s.(principals := s.principals[id := p], bindings := s.bindings[external := id],
                     sessions := s.sessions[sessionId := Session(tenant.tenantId, external, expiresAt, false)]),
                  tenant.tenantId, Note(AccountLinked, Some(id), None, None, None, None), p))
  }

  /** Binding a further external identity to a stored principal. */
  function LinkAccount(s: Stores, tenantId: Id, principalId: Id, connector: string, subject: string)
    : Result<Change<()>, DenialReason>
  {
    match TenantOf(s, tenantId)
    case Err(e) => Err(e)
    case Ok(tenant) =>
      var external := External(tenant.tenantId, connector, subject);
      if IsBlank(subject) || PrincipalOf(s, tenant, principalId).Err? then Err(UnknownPrincipal)
      else if external in s.bindings && s.bindings[external] != principalId then Err(UnknownPrincipal)
      else Ok(Change(s.(bindings := s.bindings[external := principalId]), tenant.tenantId,
                     Note(AccountLinked, Some(principalId), None, None, None, None), ()))
  }

  /** The principal an external identity is bound to. */
  function Resolve(s: Stores, tenant: TenantContext, external: External): Result<Principal, DenialReason> {
    if external !in s.bindings then Err(UnknownPrincipal) else PrincipalOf(s, tenant, s.bindings[external])
  }

  /** Opening a session for an external identity whose principal may act. */
  function SignIn(s: Stores, tenantId: Id, sessionId: Id, connector: string, subject: string, expiresAt: int)
    : Result<Change<()>, DenialReason>
  {
    match TenantOf(s, tenantId)
    case Err(e) => Err(e)
    case Ok(tenant) =>
      var external := External(tenant.tenantId, connector, subject);
      if IsBlank(subject) then Err(UnknownPrincipal)
      else match Resolve(s, tenant, external)
        case Err(_) => Err(UnknownPrincipal)
        case Ok(p) =>
          if Unusable(p).Some? then Err(Unusable(p).value)
          else
            Ok(Change(s.(sessions := s.sessions[sessionId := Session(tenant.tenantId, external, expiresAt, false)]),
                      tenant.tenantId, Note(LoginEvent, Some(p.id), None, None, None, None), ()))
  }

  function Logout(s: Stores, tenantId: Id, sessionId: Id): Result<Change<()>, DenialReason> {
    match TenantOf(s, tenantId)
    case Err(e) => Err(e)
    case Ok(tenant) =>
      if sessionId !in s.sessions then Err(InvalidSession)
      else if s.sessions[sessionId].tenantId != tenant.tenantId then Err(TenantMismatch)
      else
        var closed := s.sessions[sessionId].(revoked := true);
        Ok(Change(s.(sessions := s.sessions[sessionId := closed]), tenant.tenantId,
                  Note(SessionRevokedEvent, None, None, None, None, None), ()))
  }

  function ResolveSession(config: Config, s: Stores, tenantId: Id, sessionId: Id, listing: seq<Delegation>, env: Env)
    : Result<RuntimeContext, DenialReason>
  {
    match TenantOf(s, tenantId)
    case Err(e) => Err(e)
    case Ok(tenant) =>
      if sessionId !in s.sessions then Err(InvalidSession)
      else
        var session := s.sessions[sessionId];
        if session.tenantId != tenant.tenantId then Err(TenantMismatch)
        else if session.revoked then Err(RevokedSession)
        else if env.now >= session.expiresAt then Err(ExpiredSession)
        else match Resolve(s, tenant, session.identity)
          case Err(e) => Err(e)
          case Ok(p) =>
            if Unusable(p).Some? then Err(Unusable(p).value)
            else match PolicyOf(config, s, tenant)
              case None => Err(PolicyNotFound)
              case Some(policy) =>
                match Envelope(policy, p, tenant, listing, env.now, env.clock)
                case Err(_) => Err(TenantMismatch)
                case Ok(held) => Ok(RuntimeContext(p, tenant, Some(sessionId), ActingDelegation(held, listing), None))
  }

  /** The delegation behind the first delegated grant. */
  function ActingDelegation(held: seq<GrantedCapability>, listing: seq<Delegation>): Option<Delegation> {
    match IndexWhere(held, (g: GrantedCapability) => g.delegationId.Some?)
    case None => None
    case Some(i) =>
      match IndexWhere(listing, (d: Delegation) => Some(d.id) == held[i].delegationId)
      case None => None
      case Some(k) => Some(listing[k])
  }

  // ----- Authorization --------------------------------------------------------------------------

  const WINDOW: nat := 100

  function Remember(decisions: seq<Evidence>, e: Evidence): seq<Evidence> {
    if |decisions| + 1 > WINDOW then (decisions + [e])[1..] else decisions + [e]
  }

  function Attach(decision: AuthorizationDecision, id: AuditEventId): AuthorizationDecision {
    decision.(auditEventId := Some(id))
  }

  /** What the event of a decision says. */
  function NoteOf(context: RuntimeContext, capability: Capability, decision: AuthorizationDecision): Note {
    var ofGrant := if decision.Allow? then decision.grant.delegationId else None;
    var delegationId := if ofGrant.Some? then ofGrant
                        else if context.delegation.Some? then Some(context.delegation.value.id) else None;
    Note(if decision.Allow? then Granted else Denied, Some(context.principal.id), delegationId,
         if context.run.Some? then Some(context.run.value.id) else None, Some(capability),
         if decision.Deny? then Some(decision.reason) else None)
  }

  function EventFor(tenantId: Id, note: Note, sequence: nat, now: int): AuditEvent {
    AuditEvent(AuditEventId(tenantId, sequence), tenantId, note.kind, note.principalId, note.delegationId, note.runId,
               note.capability, note.reason, now)
  }

  /** Records a decision in the audit log and the window. One that cannot be recorded is a denial. */
  function Record(j: Journal, context: RuntimeContext, capability: Capability, decision: AuthorizationDecision,
                  revision: nat, env: Env): (Journal, AuthorizationDecision)
  {
    var appended := Append(j, context.tenant.tenantId, NoteOf(context, capability, decision), env);
    if !env.auditAccepts then (appended, DenyPlain(AuditUnavailable))
    else
      var recorded := Attach(decision, AuditEventId(context.tenant.tenantId, appended.sequence - 1));
      var e := Evidence(recorded, context.principal.id, context.tenant.tenantId, capability, context.run, revision, env.now);
      (appended.(decisions := Remember(appended.decisions, e)), recorded)
  }

  function AuthorizeCapability(s: MeshState, context: RuntimeContext, capability: Capability,
                               listing: seq<Delegation>, revision: nat, env: Env)
    : (Journal, AuthorizationDecision)
  {
    match PolicyOf(s.config, s.stores, context.tenant)
    case None => (s.journal, DenyPlain(PolicyNotFound))
    case Some(policy) =>
      Record(s.journal, context, capability,
             CapabilityDecision(Some(policy), Some(context.principal), Some(context.tenant),
                                PickDelegation(listing, capability, env.now), capability, env.now, env.clock),
             revision, env)
  }

  function AuthorizeRequest(s: MeshState, context: RuntimeContext, request: AuthorizationRequest,
                            attributes: Option<ResourceAttributes>, listing: seq<Delegation>, revision: nat, env: Env)
    : (Journal, AuthorizationDecision)
  {
    match PolicyOf(s.config, s.stores, context.tenant)
    case None => (s.journal, DenyPlain(PolicyNotFound))
    case Some(policy) =>
      Record(s.journal, context, request.capability,
             RequestDecision(Some(policy), Some(context.principal), Some(context.tenant),
                             PickDelegation(listing, request.capability, env.now), request, attributes,
                             env.now, env.clock),
             revision, env)
  }

  /** Why a run may not be used for a request, with the run when it is known. */
  function RunDenial(s: Stores, context: RuntimeContext, runId: Id, request: AuthorizationRequest,
                     attributes: Option<ResourceAttributes>, now: int): Option<(DenialReason, Option<AgentRun>)>
  {
    match CheckedRun(s, context.tenant, runId, now)
    case Err(e) => Some((e, None))
    case Ok(run) =>
      if run.agent != context.principal.id || run.tenantId != context.tenant.tenantId then Some((NoSuchRun, Some(run)))
      else if request.capability !in run.capabilities then Some((RunScopeDenied, Some(run)))
      else if !ScopeMatches(run.scope, request, attributes) then Some((RunScopeDenied, Some(run)))
      else None
  }

  function AuthorizeRun(s: MeshState, context: RuntimeContext, runId: Id, request: AuthorizationRequest,
                        attributes: Option<ResourceAttributes>, listing: seq<Delegation>, revision: nat, env: Env)
    : (Journal, AuthorizationDecision)
  {
    match RunDenial(s.stores, context, runId, request, attributes, env.now)
    case Some((reason, run)) =>
      Record(s.journal, if run.Some? then context.(run := run) else context, request.capability,
             DenyFor(request, reason, PolicyOf(s.config, s.stores, context.tenant), []), revision, env)
    case None =>
      AuthorizeRequest(s, context.(run := Some(CheckedRun(s.stores, context.tenant, runId, env.now).value)), request,
                       attributes, listing, revision, env)
  }
}
