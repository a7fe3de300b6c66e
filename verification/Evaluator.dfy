/** The policy engine: conditions, rules, and the two evaluators every principal kind goes through. */
module Evaluator {
  import opened Prelude
  import opened Contract

  // ----- Policies -------------------------------------------------------------------------------

  datatype PrincipalAttribute = OwnId | OwnTenant | OwnClaim(key: string)

  datatype Condition =
    | Always
    | All(conditions: seq<Condition>)
    | ClaimEquals(key: string, value: ClaimValue)
    | ClaimIn(key: string, values: seq<ClaimValue>)
    | TimeBound(start: int, end: int)
    | TenantCurrent
    | ResourceAttributeEquals(key: string, value: ClaimValue)
    | ResourceAttributeIn(key: string, values: seq<ClaimValue>)
    | RelationshipEquals(resourceAttribute: string, attribute: PrincipalAttribute)

  datatype Effect = AllowEffect | DenyEffect

  datatype ResourceRef = ResourceRef(resourceType: string, resourceId: string, tenantId: Id)

  datatype ResourceSelector = ResourceSelector(resourceType: string, resourceId: Option<string>)
  {
    predicate Matches(resource: ResourceRef) {
      && resourceType == resource.resourceType
      && (resourceId.Some? ==> resourceId.value == "*" || resourceId.value == resource.resourceId)
    }
  }

  datatype Rule = Rule(
    capability: Capability, condition: Condition, resource: Option<ResourceSelector>,
    action: Option<Action>, effect: Effect)

  datatype Policy = Policy(id: Id, rules: seq<Rule>)

  datatype ResourceAttributes = ResourceAttributes(tenantId: Option<Id>, values: Attributes)

  datatype AuthorizationRequest = AuthorizationRequest(
    principal: Id, tenant: Id, capability: Capability, action: Action, resource: Option<ResourceRef>)

  // ----- Decisions ------------------------------------------------------------------------------

  datatype ConditionEvidence = ConditionEvidence(condition: Condition, pass: bool)

  datatype AuthorityBasis = ByClaim | ByDelegation

  datatype GrantedCapability = GrantedCapability(
    capability: Capability, policyId: Id, tenantId: Id, principalId: Id, principalKind: PrincipalKind,
    authority: AuthorityBasis, claimBasis: seq<string>, delegationId: Option<Id>,
    delegationChain: seq<Id>, delegatedBy: Option<Id>)

  datatype MatchedRule = RuleAt(index: nat) | DelegationRule | BasisRule(basis: string)

  datatype AuditEventId = AuditEventId(tenantId: Id, sequence: nat)

  datatype DenialReason =
    | UnknownTenant | UnknownPrincipal | TenantMismatch | ClaimMismatch | PolicyNotFound | CapabilityNotGranted
    | ExpiredSession | RevokedSession | InvalidSession
    | ExpiredDelegation | RevokedDelegation | InvalidDelegation | DelegationMissing
    | DelegationScopeDenied | DelegationExceedsAuthority
    | NoSuchRun | CancelledRun | RunIsExpired | RunScopeDenied | RunExceedsDelegation | ParentRunScopeDenied
    | AgentRevoked | AgentSuspended | PolicyDenied | ConditionFailed | AuditUnavailable

  datatype AuthorizationDecision =
    | Allow(grant: GrantedCapability, resource: Option<ResourceRef>, action: Option<Action>,
            matchedRules: seq<MatchedRule>, conditions: seq<ConditionEvidence>,
            auditEventId: Option<AuditEventId>)
    | Deny(reason: DenialReason, capability: Option<Capability>, resource: Option<ResourceRef>,
           action: Option<Action>, policyId: Option<Id>, matchedRules: seq<MatchedRule>,
           conditions: seq<ConditionEvidence>, auditEventId: Option<AuditEventId>)
  {
    function Grant(): Option<GrantedCapability> {
      if Allow? then Some(grant) else None
    }
  }

  function DenyPlain(reason: DenialReason): AuthorizationDecision {
    Deny(reason, None, None, None, None, [], [], None)
  }

  function DenyFor(request: AuthorizationRequest, reason: DenialReason, policy: Option<Policy>,
                   conditions: seq<ConditionEvidence>): AuthorizationDecision
  {
    Deny(reason, Some(request.capability), request.resource, Some(request.action),
         if policy.Some? then Some(policy.value.id) else None, [], conditions, None)
  }

  // ----- Conditions -----------------------------------------------------------------------------

  /** What a condition may look at. `clock` is the system clock, absent when it cannot be read. */
  datatype Facts = Facts(principal: Principal, resource: Option<ResourceAttributes>, clock: Option<int>)
  {
    function ResourceValue(key: string): Option<ClaimValue> {
      if resource.Some? && key in resource.value.values then Some(resource.value.values[key]) else None
    }

    function Claim(key: string): Option<ClaimValue> {
      if key in principal.claims then Some(principal.claims[key]) else None
    }

    function PrincipalValue(attribute: PrincipalAttribute): Option<ClaimValue> {
      match attribute
      case OwnId => Some(Text(principal.id))
      case OwnTenant => Some(Text(principal.tenantId))
      case OwnClaim(key) => Claim(key)
    }
  }

  /** What a condition means. */
  predicate Holds(c: Condition, f: Facts) {
    match c
    case Always => true
    case All(conditions) => forall i :: 0 <= i < |conditions| ==> Holds(conditions[i], f)
    case ClaimEquals(key, value) => f.Claim(key) == Some(value)
    case ClaimIn(key, values) => f.Claim(key).Some? && f.Claim(key).value in values
    case TimeBound(start, end) => f.clock.Some? && start <= f.clock.value <= end
    case TenantCurrent => f.resource.Some? && f.resource.value.tenantId == Some(f.principal.tenantId)
    case ResourceAttributeEquals(key, value) => f.ResourceValue(key) == Some(value)
    case ResourceAttributeIn(key, values) => f.ResourceValue(key).Some? && f.ResourceValue(key).value in values
    case RelationshipEquals(key, attribute) =>
      f.ResourceValue(key).Some? && f.ResourceValue(key) == f.PrincipalValue(attribute)
  }

  /** The evidence trail: one entry per leaf, in order. */
  function EvidenceOf(c: Condition, f: Facts): seq<ConditionEvidence>
    decreases c, 0
  {
    if c.All? then EvidenceUpTo(c.conditions, |c.conditions|, f) else [ConditionEvidence(c, Holds(c, f))]
  }

  function EvidenceUpTo(conditions: seq<Condition>, n: nat, f: Facts): seq<ConditionEvidence>
    requires n <= |conditions|
    decreases conditions, n
  {
    if n == 0 then [] else EvidenceUpTo(conditions, n - 1, f) + EvidenceOf(conditions[n - 1], f)
  }

  predicate AllPass(evidence: seq<ConditionEvidence>) {
    forall e <- evidence :: e.pass
  }

  /** One branch for each kind of leaf. */
  method EvaluateLeaf(c: Condition, f: Facts) returns (matches: bool)
    requires !c.All?
    ensures matches == Holds(c, f)
  {
    match c {
      case Always => matches := true;
      case ClaimEquals(key, value) =>
        matches := key in f.principal.claims && f.principal.claims[key] == value;
      case ClaimIn(key, values) =>
        matches := key in f.principal.claims && f.principal.claims[key] in values;
      case TimeBound(start, end) =>
        if f.clock.None? {
          return false;
        }
        var now := f.clock.value;
        matches := now >= start && now <= end;
      case TenantCurrent =>
        matches := f.resource.Some? && f.resource.value.tenantId.Some?
                   && f.resource.value.tenantId.value == f.principal.tenantId;
      case ResourceAttributeEquals(key, value) =>
        matches := f.resource.Some? && key in f.resource.value.values && f.resource.value.values[key] == value;
      case ResourceAttributeIn(key, values) =>
        matches := f.resource.Some? && key in f.resource.value.values && f.resource.value.values[key] in values;
      case RelationshipEquals(key, attribute) =>
        if f.resource.None? || key !in f.resource.value.values {
          return false;
        }
        var left := f.resource.value.values[key];
        match attribute {
          case OwnId => matches := left == ClaimValue.Text(f.principal.id);
          case OwnTenant => matches := left == ClaimValue.Text(f.principal.tenantId);
          case OwnClaim(claim) => matches := claim in f.principal.claims && left == f.principal.claims[claim];
        }
    }
  }

  method EvaluateCondition(c: Condition, f: Facts) returns (matches: bool, evidence: seq<ConditionEvidence>)
    ensures matches == Holds(c, f)
    ensures evidence == EvidenceOf(c, f)
    decreases c
  {
    if !c.All? {
      matches := EvaluateLeaf(c, f);
      return matches, [ConditionEvidence(c, matches)];
    }
    matches, evidence := true, [];
    for i := 0 to |c.conditions|
      invariant matches == forall j :: 0 <= j < i ==> Holds(c.conditions[j], f)
      invariant evidence == EvidenceUpTo(c.conditions, i, f)
    {
      var m, e := EvaluateCondition(c.conditions[i], f);
      matches := matches && m;
      evidence := evidence + e;
    }
  }

  /** A condition holds exactly when every entry of its evidence is a pass, however deeply it nests. */
  lemma {:induction false} EvidenceDecides(c: Condition, f: Facts)
    ensures Holds(c, f) <==> AllPass(EvidenceOf(c, f))
    decreases c, 0
  {
    if c.All? {
      EvidencePrefixDecides(c.conditions, |c.conditions|, f);
    }
  }

  lemma {:induction false} EvidencePrefixDecides(conditions: seq<Condition>, n: nat, f: Facts)
    requires n <= |conditions|
    ensures (forall i :: 0 <= i < n ==> Holds(conditions[i], f)) <==> AllPass(EvidenceUpTo(conditions, n, f))
    decreases conditions, n
  {
    if n > 0 {
      EvidencePrefixDecides(conditions, n - 1, f);
      EvidenceDecides(conditions[n - 1], f);
      var a, b := EvidenceUpTo(conditions, n - 1, f), EvidenceOf(conditions[n - 1], f);
      assert AllPass(a + b) <==> AllPass(a) && AllPass(b) by {
        assert forall e :: e in a + b <==> e in a || e in b;
      }
    }
  }

  function ClaimBasis(c: Condition): seq<string>
    decreases c, 0
  {
    match c
    case Always => ["always"]
    case All(conditions) => ClaimBasisUpTo(conditions, |conditions|)
    case ClaimEquals(key, _) => [key]
    case ClaimIn(key, _) => [key]
    case TimeBound(_, _) => ["time"]
    case TenantCurrent => ["tenant=current"]
    case ResourceAttributeEquals(key, _) => ["resource." + key]
    case ResourceAttributeIn(key, _) => ["resource." + key]
    case RelationshipEquals(key, _) => ["resource." + key]
  }

  function ClaimBasisUpTo(conditions: seq<Condition>, n: nat): seq<string>
    requires n <= |conditions|
    decreases conditions, n
  {
    if n == 0 then [] else ClaimBasisUpTo(conditions, n - 1) + ClaimBasis(conditions[n - 1])
  }

  // ----- Scopes ---------------------------------------------------------------------------------

  predicate MatchesTenant(value: ClaimValue, tenantId: Id) {
    match value
    case Enum(name) => name == tenantId
    case Text(text) => text == tenantId
    case _ => false
  }

  predicate AttributeMatches(key: string, expected: ClaimValue, resource: ResourceRef,
                             attributes: Option<ResourceAttributes>)
  {
    if key == "tenant" || key == "tenant_id" then MatchesTenant(expected, resource.tenantId)
    else attributes.Some? && key in attributes.value.values && attributes.value.values[key] == expected
  }

  /** Does the scope of a delegation or a run cover the request? */
  predicate ScopeMatches(scope: ResourceScope, request: AuthorizationRequest,
                         attributes: Option<ResourceAttributes>)
  {
    scope.IsUnconstrained() ||
    (&& request.resource.Some?
     && (scope.resourceType.Some? ==> scope.resourceType.value == request.resource.value.resourceType)
     && (scope.resourceId.Some? ==>
           scope.resourceId.value == "*" || scope.resourceId.value == request.resource.value.resourceId)
     && forall key <- scope.attributes ::
          AttributeMatches(key, scope.attributes[key], request.resource.value, attributes))
  }

  /** Narrowing a scope never lets a request through that the wider scope refuses. */
  lemma ScopeMatchingIsMonotone(narrow: ResourceScope, wide: ResourceScope, request: AuthorizationRequest,
                                attributes: Option<ResourceAttributes>)
    requires narrow.IsSubsetOf(wide) && ScopeMatches(narrow, request, attributes)
    ensures ScopeMatches(wide, request, attributes)
  {
    if narrow.IsUnconstrained() {
      assert wide.attributes.Keys == {};
    } else if !wide.IsUnconstrained() {
      forall key | key in wide.attributes
        ensures AttributeMatches(key, wide.attributes[key], request.resource.value, attributes)
      {
        assert key in narrow.attributes && narrow.attributes[key] == wide.attributes[key];
      }
    }
  }

  // ----- Grants ---------------------------------------------------------------------------------

  function RuleGrant(policy: Policy, principal: Principal, tenant: TenantContext, rule: Rule): GrantedCapability {
    GrantedCapability(rule.capability, policy.id, tenant.tenantId, principal.id, principal.kind, ByClaim,
                      ClaimBasis(rule.condition), None, [], None)
  }

  function DelegatedGrant(policy: Policy, principal: Principal, tenant: TenantContext, delegation: Delegation,
                          capability: Capability): GrantedCapability
  {
    GrantedCapability(capability, policy.id, tenant.tenantId, principal.id, principal.kind, ByDelegation,
                      ["delegation:" + delegation.delegator], Some(delegation.id),
                      delegation.chain + [delegation.id], Some(delegation.delegator))
  }

  /** The grant an envelope holds for a capability: the first one listed. */
  function GrantFor(grants: seq<GrantedCapability>, capability: Capability): (r: Option<GrantedCapability>)
    ensures r.Some? <==> exists g <- grants :: g.capability == capability
    ensures r.Some? ==> r.value in grants && r.value.capability == capability
  {
    match IndexWhere(grants, (g: GrantedCapability) => g.capability == capability)
    case Some(i) => Some(grants[i])
    case None => None
  }

  predicate LiveFor(d: Delegation, principal: Principal, tenant: TenantContext, now: int) {
    d.tenantId == tenant.tenantId && d.delegate == principal.id && d.IsValidAt(now)
  }

  predicate Carries(d: Delegation, capability: Capability, now: int) {
    d.IsValidAt(now) && capability in d.capabilities
  }

  // ----- The envelope evaluator -----------------------------------------------------------------

  datatype EvaluationError = PrincipalTenantMismatch | PolicyTenantMismatch

  function RuleGrants(policy: Policy, principal: Principal, tenant: TenantContext, clock: Option<int>,
                      n: nat): seq<GrantedCapability>
    requires n <= |policy.rules|
  {
    if n == 0 then []
    else
      var rest := RuleGrants(policy, principal, tenant, clock, n - 1);
      var rule := policy.rules[n - 1];
      if Holds(rule.condition, Facts(principal, None, clock))
      then rest + [RuleGrant(policy, principal, tenant, rule)] else rest
  }

  function AddCapabilities(grants: seq<GrantedCapability>, policy: Policy, principal: Principal,
                           tenant: TenantContext, d: Delegation, n: nat): seq<GrantedCapability>
    requires n <= |d.capabilities|
  {
    if n == 0 then grants
    else
      var rest := AddCapabilities(grants, policy, principal, tenant, d, n - 1);
      if GrantFor(rest, d.capabilities[n - 1]).Some? then rest
      else rest + [DelegatedGrant(policy, principal, tenant, d, d.capabilities[n - 1])]
  }

  function AddDelegations(grants: seq<GrantedCapability>, policy: Policy, principal: Principal,
                          tenant: TenantContext, delegations: seq<Delegation>, now: int, n: nat)
    : seq<GrantedCapability>
    requires n <= |delegations|
  {
    if n == 0 then grants
    else
      var rest := AddDelegations(grants, policy, principal, tenant, delegations, now, n - 1);
      var d := delegations[n - 1];
      if LiveFor(d, principal, tenant, now)
      then AddCapabilities(rest, policy, principal, tenant, d, |d.capabilities|) else rest
  }

  /** Everything a principal holds: its rule grants, then what live delegations add. */
  function Envelope(policy: Policy, principal: Principal, tenant: TenantContext, delegations: seq<Delegation>,
                    now: int, clock: Option<int>): Result<seq<GrantedCapability>, EvaluationError>
  {
    if principal.tenantId != tenant.tenantId then Err(PrincipalTenantMismatch)
    else if policy.id != tenant.policyId then Err(PolicyTenantMismatch)
    else if principal.kind == Agent && principal.agentState != Some(Active) then Ok([])
    else
      var grants := RuleGrants(policy, principal, tenant, clock, |policy.rules|);
      Ok(AddDelegations(grants, policy, principal, tenant, delegations, now, |delegations|))
  }

  function HeldGrant(envelope: Result<seq<GrantedCapability>, EvaluationError>, capability: Capability)
    : Option<GrantedCapability>
  {
    if envelope.Ok? then GrantFor(envelope.value, capability) else None
  }

  method EvaluateWithDelegations(policy: Policy, principal: Principal, tenant: TenantContext,
                                 delegations: seq<Delegation>, now: int, clock: Option<int>)
    returns (envelope: Result<seq<GrantedCapability>, EvaluationError>)
    ensures envelope == Envelope(policy, principal, tenant, delegations, now, clock)
  {
    if principal.tenantId != tenant.tenantId {
      return Err(PrincipalTenantMismatch);
    }
    if policy.id != tenant.policyId {
      return Err(PolicyTenantMismatch);
    }
    if principal.kind == Agent && principal.agentState != Some(Active) {
      return Ok([]);
    }
    var granted := [];
    for i := 0 to |policy.rules|
      invariant granted == RuleGrants(policy, principal, tenant, clock, i)
    {
      var matches, _ := EvaluateCondition(policy.rules[i].condition, Facts(principal, None, clock));
      if matches {
        granted := granted + [RuleGrant(policy, principal, tenant, policy.rules[i])];
      }
    }
    ghost var byRules := granted;
    for i := 0 to |delegations|
      invariant granted == AddDelegations(byRules, policy, principal, tenant, delegations, now, i)
    {
      var d := delegations[i];
      if LiveFor(d, principal, tenant, now) {
        ghost var before := granted;
        for k := 0 to |d.capabilities|
          invariant granted == AddCapabilities(before, policy, principal, tenant, d, k)
        {
          if GrantFor(granted, d.capabilities[k]).None? {
            granted := granted + [DelegatedGrant(policy, principal, tenant, d, d.capabilities[k])];
          }
        }
      }
    }
    envelope := Ok(granted);
  }

  // ----- The capability evaluator ---------------------------------------------------------------

  function AgentDenial(principal: Principal): Option<DenialReason> {
    if principal.kind != Agent then None
    else match principal.agentState
      case Some(Active) => None
      case Some(Revoked) => Some(AgentRevoked)
      case Some(Retired) => Some(AgentRevoked)
      case Some(Suspended) => Some(AgentSuspended)
      case _ => Some(UnknownPrincipal)
  }

  function DelegationDenial(principal: Principal, tenant: TenantContext, delegation: Option<Delegation>,
                            capability: Capability, now: int): Option<DenialReason>
  {
    if delegation.None? then Some(DelegationMissing)
    else
      var d := delegation.value;
      if d.tenantId != tenant.tenantId || d.delegate != principal.id then Some(InvalidDelegation)
      else if d.revokedAt.Some? then Some(RevokedDelegation)
      else if !d.IsValidAt(now) then Some(ExpiredDelegation)
      else if capability !in d.capabilities then Some(DelegationMissing)
      else None
  }

  /** The first rule that names the capability and whose condition the principal meets on its own. */
  function GrantingRule(policy: Policy, principal: Principal, capability: Capability, clock: Option<int>)
    : Option<nat>
  {
    IndexWhere(policy.rules, (r: Rule) => r.capability == capability && Holds(r.condition, Facts(principal, None, clock)))
  }

  function CapabilityDecision(policy: Option<Policy>, principal: Option<Principal>,
                              tenant: Option<TenantContext>, delegation: Option<Delegation>,
                              capability: Capability, now: int, clock: Option<int>)
    : AuthorizationDecision
  {
    if policy.None? then DenyPlain(PolicyNotFound)
    else if principal.None? then DenyPlain(UnknownPrincipal)
    else if tenant.None? then DenyPlain(UnknownTenant)
    else
      var policy, principal, tenant := policy.value, principal.value, tenant.value;
      if principal.tenantId != tenant.tenantId || policy.id != tenant.policyId then DenyPlain(TenantMismatch)
      else if AgentDenial(principal).Some? then DenyPlain(AgentDenial(principal).value)
      else
        match GrantingRule(policy, principal, capability, clock)
        case Some(i) =>
          assert i < |policy.rules|;
          var rule := policy.rules[i];
          var basis := ClaimBasis(rule.condition);
          Allow(RuleGrant(policy, principal, tenant, rule), None, None,
                seq(|basis|, k requires 0 <= k < |basis| => BasisRule(basis[k])),
                EvidenceOf(rule.condition, Facts(principal, None, clock)), None)
        case None =>
          if principal.kind != Agent then DenyPlain(CapabilityNotGranted)
          else match DelegationDenial(principal, tenant, delegation, capability, now)
            case Some(reason) => DenyPlain(reason)
            case None =>
              Allow(DelegatedGrant(policy, principal, tenant, delegation.value, capability),
                    None, None, [DelegationRule], [], None)
  }

  /** No earlier delegation is live and carries the capability, nor carries it at all if this one is not live. */
  predicate PickedAt(delegations: seq<Delegation>, i: nat, capability: Capability, now: int)
    requires i < |delegations|
  {
    forall j :: 0 <= j < i ==>
      && !Carries(delegations[j], capability, now)
      && (capability in delegations[j].capabilities ==> Carries(delegations[i], capability, now))
  }

  /** The delegation put before the evaluator: the first live one that carries the capability, else the first that
      does. */
  function PickDelegation(delegations: seq<Delegation>, capability: Capability, now: int)
    : (r: Option<Delegation>)
    ensures r.Some? ==> r.value in delegations && capability in r.value.capabilities
    ensures r.None? <==> forall d <- delegations :: capability !in d.capabilities
    ensures (exists d <- delegations :: Carries(d, capability, now)) ==> r.Some? && Carries(r.value, capability, now)
    ensures r.Some? ==> exists i :: 0 <= i < |delegations| && delegations[i] == r.value && PickedAt(delegations, i, capability, now)
  {
    match IndexWhere(delegations, (d: Delegation) => Carries(d, capability, now))
    case Some(i) => Some(delegations[i])
    case None =>
      match IndexWhere(delegations, (d: Delegation) => capability in d.capabilities)
      case Some(i) => Some(delegations[i])
      case None => None
  }

  // ----- The two evaluators agree ---------------------------------------------------------------

  lemma GrantForAppend(grants: seq<GrantedCapability>, g: GrantedCapability, capability: Capability)
    ensures GrantFor(grants + [g], capability) ==
            if GrantFor(grants, capability).Some? then GrantFor(grants, capability)
            else if g.capability == capability then Some(g) else None
  {
    var p := (g: GrantedCapability) => g.capability == capability;
    var longer := grants + [g];
    assert longer[|grants|] == g;
    assert forall i :: 0 <= i < |grants| ==> longer[i] == grants[i];
  }

  /** Looking a capability up among the rule grants finds the first rule that grants it. */
  lemma {:induction false} RuleGrantsLookup(policy: Policy, principal: Principal, tenant: TenantContext,
                                            clock: Option<int>, n: nat, capability: Capability)
    requires n <= |policy.rules|
    ensures var found := GrantFor(RuleGrants(policy, principal, tenant, clock, n), capability);
            var first := GrantingRule(policy, principal, capability, clock);
            found == if first.Some? && first.value < n
                     then Some(RuleGrant(policy, principal, tenant, policy.rules[first.value])) else None
  {
    if n > 0 {
      RuleGrantsLookup(policy, principal, tenant, clock, n - 1, capability);
      GrantForAppend(RuleGrants(policy, principal, tenant, clock, n - 1),
                     RuleGrant(policy, principal, tenant, policy.rules[n - 1]), capability);
    }
  }

  lemma {:induction false} AddCapabilitiesLookup(grants: seq<GrantedCapability>, policy: Policy, principal: Principal,
                                                 tenant: TenantContext, d: Delegation, n: nat, capability: Capability)
    requires n <= |d.capabilities|
    ensures GrantFor(AddCapabilities(grants, policy, principal, tenant, d, n), capability) ==
            if GrantFor(grants, capability).Some? then GrantFor(grants, capability)
            else if capability in d.capabilities[..n]
                 then Some(DelegatedGrant(policy, principal, tenant, d, capability)) else None
  {
    hide GrantFor, DelegatedGrant;
    if n > 0 {
      var rest, last := AddCapabilities(grants, policy, principal, tenant, d, n - 1), d.capabilities[n - 1];
      AddCapabilitiesLookup(grants, policy, principal, tenant, d, n - 1, capability);
      assert DelegatedGrant(policy, principal, tenant, d, last).capability == last by {
        DelegatedGrantIsFor(policy, principal, tenant, d, last);
      }
      GrantForAppend(rest, DelegatedGrant(policy, principal, tenant, d, last), capability);
      assert d.capabilities[..n] == d.capabilities[..n - 1] + [last];
    }
  }

  lemma DelegatedGrantIsFor(policy: Policy, principal: Principal, tenant: TenantContext, d: Delegation,
                            capability: Capability)
    ensures DelegatedGrant(policy, principal, tenant, d, capability).capability == capability
  {
  }

  /** The first delegation of a listing that is live for the principal and carries the capability. */
  function FirstLive(principal: Principal, tenant: TenantContext, delegations: seq<Delegation>, now: int,
                     capability: Capability): Option<nat>
  {
    IndexWhere(delegations, (d: Delegation) => LiveFor(d, principal, tenant, now) && capability in d.capabilities)
  }

  lemma {:induction false} AddDelegationsLookup(grants: seq<GrantedCapability>, policy: Policy, principal: Principal,
                                                tenant: TenantContext, delegations: seq<Delegation>, now: int, n: nat,
                                                capability: Capability)
    requires n <= |delegations|
    ensures var first := FirstLive(principal, tenant, delegations, now, capability);
            GrantFor(AddDelegations(grants, policy, principal, tenant, delegations, now, n), capability) ==
            if GrantFor(grants, capability).Some? then GrantFor(grants, capability)
            else if first.Some? && first.value < n
                 then Some(DelegatedGrant(policy, principal, tenant, delegations[first.value], capability)) else None
  {
    hide GrantFor, DelegatedGrant, LiveFor, AddCapabilities;
    if n > 0 {
      AddDelegationsLookup(grants, policy, principal, tenant, delegations, now, n - 1, capability);
      var d := delegations[n - 1];
      AddCapabilitiesLookup(AddDelegations(grants, policy, principal, tenant, delegations, now, n - 1),
                            policy, principal, tenant, d, |d.capabilities|, capability);
      assert d.capabilities[..|d.capabilities|] == d.capabilities;
    }
  }

  ghost predicate ListingFor(delegations: seq<Delegation>, principal: Id, tenant: TenantContext) {
    forall d <- delegations :: d.tenantId == tenant.tenantId && d.delegate == principal
  }

  /** The envelope's answer in closed form. */
  lemma HeldGrantIs(policy: Policy, principal: Principal, tenant: TenantContext, delegations: seq<Delegation>,
                    capability: Capability, now: int, clock: Option<int>)
    requires principal.tenantId == tenant.tenantId && policy.id == tenant.policyId
    requires AgentDenial(principal).None?
    ensures var rule := GrantingRule(policy, principal, capability, clock);
            var first := FirstLive(principal, tenant, delegations, now, capability);
            HeldGrant(Envelope(policy, principal, tenant, delegations, now, clock), capability) ==
            if rule.Some? then Some(RuleGrant(policy, principal, tenant, policy.rules[rule.value]))
            else if first.Some? then Some(DelegatedGrant(policy, principal, tenant, delegations[first.value], capability))
            else None
  {
    RuleGrantsLookup(policy, principal, tenant, clock, |policy.rules|, capability);
    AddDelegationsLookup(RuleGrants(policy, principal, tenant, clock, |policy.rules|), policy, principal, tenant,
                         delegations, now, |delegations|, capability);
  }

  /** The capability evaluator, shown the delegation `PickDelegation` chooses, grants exactly what the
      envelope holds. Only a non-agent acting on a live delegation alone sees a difference. */
  lemma EvaluatorsAgree(policy: Policy, principal: Principal, tenant: TenantContext, delegations: seq<Delegation>,
                        capability: Capability, now: int, clock: Option<int>)
    requires ListingFor(delegations, principal.id, tenant)
    ensures var decided := CapabilityDecision(Some(policy), Some(principal), Some(tenant),
                                              PickDelegation(delegations, capability, now), capability, now, clock);
            var held := HeldGrant(Envelope(policy, principal, tenant, delegations, now, clock), capability);
            decided.Grant() == held <==>
            || principal.kind == Agent
            || principal.tenantId != tenant.tenantId || policy.id != tenant.policyId
            || GrantingRule(policy, principal, capability, clock).Some?
            || forall d <- delegations :: !Carries(d, capability, now)
  {
    hide Holds, EvidenceOf, ClaimBasis, GrantFor, RuleGrants, AddDelegations;
    if principal.tenantId == tenant.tenantId && policy.id == tenant.policyId {
      if AgentDenial(principal).None? {
        HeldGrantIs(policy, principal, tenant, delegations, capability, now, clock);
        var first := FirstLive(principal, tenant, delegations, now, capability);
        var picked := IndexWhere(delegations, (d: Delegation) => Carries(d, capability, now));
        assert first == picked;
      }
    }
  }

  // ----- The request evaluator ------------------------------------------------------------------

  /** The rule is about this request, whatever its condition says. */
  predicate Concerns(rule: Rule, request: AuthorizationRequest) {
    && rule.capability == request.capability
    && (rule.action.Some? ==> rule.action.value == request.action)
    && (rule.resource.Some? ==> request.resource.Some? && rule.resource.value.Matches(request.resource.value))
  }

  predicate Applies(rule: Rule, request: AuthorizationRequest, f: Facts) {
    Concerns(rule, request) && Holds(rule.condition, f)
  }

  function FirstApplicable(policy: Policy, request: AuthorizationRequest, f: Facts): (r: Option<nat>)
    ensures r.Some? ==> r.value < |policy.rules|
  {
    IndexWhere(policy.rules, (r: Rule) => Applies(r, request, f))
  }

  function LastConcerned(policy: Policy, request: AuthorizationRequest): (r: Option<nat>)
    ensures r.Some? ==> r.value < |policy.rules|
  {
    LastIndexWhere(policy.rules, (r: Rule) => Concerns(r, request))
  }

  function RuleDecision(policy: Policy, principal: Principal, tenant: TenantContext,
                        request: AuthorizationRequest, f: Facts, i: nat): AuthorizationDecision
    requires i < |policy.rules|
  {
    var rule := policy.rules[i];
    var evidence := EvidenceOf(rule.condition, f);
    if rule.effect == DenyEffect then
      Deny(PolicyDenied, Some(request.capability), request.resource, Some(request.action), Some(policy.id),
           [RuleAt(i)], evidence, None)
    else
      Allow(RuleGrant(policy, principal, tenant, rule).(capability := request.capability), request.resource,
            Some(request.action), [RuleAt(i)], evidence, None)
  }

  /** What is decided when no rule is both about the request and satisfied. */
  function FallbackDecision(policy: Policy, principal: Principal, tenant: TenantContext,
                            delegation: Option<Delegation>, request: AuthorizationRequest,
                            attributes: Option<ResourceAttributes>, now: int,
                            failed: Option<seq<ConditionEvidence>>): AuthorizationDecision
  {
    if principal.kind == Agent then
      match DelegationDenial(principal, tenant, delegation, request.capability, now)
      case Some(reason) => DenyFor(request, reason, Some(policy), [])
      case None =>
        if !ScopeMatches(delegation.value.scope, request, attributes)
        then DenyFor(request, DelegationScopeDenied, Some(policy), [])
        else Allow(DelegatedGrant(policy, principal, tenant, delegation.value, request.capability),
                   request.resource, Some(request.action), [DelegationRule], [], None)
    else match failed
      case Some(evidence) => DenyFor(request, ConditionFailed, Some(policy), evidence)
      case None => DenyFor(request, CapabilityNotGranted, Some(policy), [])
  }

  /** Checks that come before any rule is looked at. */
  function EarlyDenial(policy: Policy, principal: Principal, tenant: TenantContext,
                       request: AuthorizationRequest, attributes: Option<ResourceAttributes>): Option<DenialReason>
  {
    if || principal.id != request.principal
       || principal.tenantId != tenant.tenantId
       || tenant.tenantId != request.tenant
       || policy.id != tenant.policyId
    then Some(TenantMismatch)
    else if && request.resource.Some?
            && tenant.tenantId != (if attributes.Some? && attributes.value.tenantId.Some?
                                   then attributes.value.tenantId.value else request.resource.value.tenantId)
    then Some(TenantMismatch)
    else AgentDenial(principal)
  }

  function RequestDecision(policy: Option<Policy>, principal: Option<Principal>, tenant: Option<TenantContext>,
                           delegation: Option<Delegation>, request: AuthorizationRequest,
                           attributes: Option<ResourceAttributes>, now: int, clock: Option<int>)
    : AuthorizationDecision
  {
    if policy.None? then DenyFor(request, PolicyNotFound, None, [])
    else if principal.None? then DenyFor(request, UnknownPrincipal, policy, [])
    else if tenant.None? then DenyFor(request, UnknownTenant, policy, [])
    else
      var p, f := policy.value, Facts(principal.value, attributes, clock);
      match EarlyDenial(p, principal.value, tenant.value, request, attributes)
      case Some(reason) => DenyFor(request, reason, policy, [])
      case None =>
        match FirstApplicable(p, request, f)
        case Some(i) => assert i < |p.rules|; RuleDecision(p, principal.value, tenant.value, request, f, i)
        case None =>
          var last := LastConcerned(p, request);
          FallbackDecision(p, principal.value, tenant.value, delegation, request, attributes, now,
                           if last.Some? then (assert last.value < |p.rules|; Some(EvidenceOf(p.rules[last.value].condition, f)))
                           else None)
  }

  method EvaluateAuthorizationRequest(policy: Option<Policy>, principal: Option<Principal>,
                                      tenant: Option<TenantContext>, delegation: Option<Delegation>,
                                      request: AuthorizationRequest, attributes: Option<ResourceAttributes>,
                                      now: int, clock: Option<int>)
    returns (decision: AuthorizationDecision)
    ensures decision == RequestDecision(policy, principal, tenant, delegation, request, attributes, now, clock)
  {
    if policy.None? {
      return DenyFor(request, PolicyNotFound, None, []);
    }
    if principal.None? {
      return DenyFor(request, UnknownPrincipal, policy, []);
    }
    if tenant.None? {
      return DenyFor(request, UnknownTenant, policy, []);
    }
    var p, who, where, f := policy.value, principal.value, tenant.value, Facts(principal.value, attributes, clock);
    var early := EarlyDenial(p, who, where, request, attributes);
    if early.Some? {
      return DenyFor(request, early.value, policy, []);
    }
    var failed: Option<seq<ConditionEvidence>> := None;
    ghost var last: Option<nat> := None;
    for i := 0 to |p.rules|
      invariant forall j :: 0 <= j < i ==> !Applies(p.rules[j], request, f)
      invariant last.Some? ==> last.value < i && Concerns(p.rules[last.value], request)
      invariant forall j :: 0 <= j < i && Concerns(p.rules[j], request) ==> last.Some? && j <= last.value
      invariant failed == if last.Some? then Some(EvidenceOf(p.rules[last.value].condition, f)) else None
    {
      var rule := p.rules[i];
      if Concerns(rule, request) {
        var matches, evidence := EvaluateCondition(rule.condition, f);
        if matches {
          assert FirstApplicable(p, request, f) == Some(i);
          return RuleDecision(p, who, where, request, f, i);
        }
        failed := Some(evidence);
        last := Some(i);
      }
    }
    assert LastConcerned(p, request) == last;
    decision := FallbackDecision(p, who, where, delegation, request, attributes, now, failed);
  }

  /** A decision taken by a rule is taken by the first rule that applies, has that rule's effect, and shows
      only passing evidence. */
  lemma FirstApplicableRuleDecides(policy: Policy, principal: Principal, tenant: TenantContext,
                                   delegation: Option<Delegation>, request: AuthorizationRequest,
                                   attributes: Option<ResourceAttributes>, now: int, clock: Option<int>)
    ensures var d := RequestDecision(Some(policy), Some(principal), Some(tenant), delegation, request, attributes, now, clock);
            var f := Facts(principal, attributes, clock);
            ((d.Allow? && d.grant.authority == ByClaim) || (d.Deny? && d.reason == PolicyDenied)) ==>
            && AllPass(d.conditions)
            && exists i ::
                 && 0 <= i < |policy.rules| && d.matchedRules == [RuleAt(i)]
                 && Applies(policy.rules[i], request, f)
                 && (d.Allow? <==> policy.rules[i].effect == AllowEffect)
                 && forall j :: 0 <= j < i ==> !Applies(policy.rules[j], request, f)
  {
    hide Holds, EvidenceOf, ClaimBasis, ScopeMatches, Concerns, LastConcerned;
    var f := Facts(principal, attributes, clock);
    var first := FirstApplicable(policy, request, f);
    if first.Some? {
      EvidenceDecides(policy.rules[first.value].condition, f);
    }
  }

  /** A failed-condition denial shows at least one failure and means that no rule applied; a plain denial
      means that no rule was about the request. */
  lemma DenialsAreExplained(policy: Policy, principal: Principal, tenant: TenantContext,
                            delegation: Option<Delegation>, request: AuthorizationRequest,
                            attributes: Option<ResourceAttributes>, now: int, clock: Option<int>)
    ensures var d := RequestDecision(Some(policy), Some(principal), Some(tenant), delegation, request, attributes, now, clock);
            var f := Facts(principal, attributes, clock);
            && (d.Deny? && d.reason == ConditionFailed ==>
                  && !AllPass(d.conditions) && principal.kind != Agent
                  && forall r <- policy.rules :: !Applies(r, request, f))
            && (d.Deny? && d.reason == CapabilityNotGranted ==>
                  forall r <- policy.rules :: !Concerns(r, request))
  {
    hide Holds, EvidenceOf, ClaimBasis, ScopeMatches, Concerns;
    var f := Facts(principal, attributes, clock);
    var first, last := FirstApplicable(policy, request, f), LastConcerned(policy, request);
    if first.None? && last.Some? {
      EvidenceDecides(policy.rules[last.value].condition, f);
    }
  }

  /** The delegation lets this principal act on this request. */
  predicate Backs(d: Delegation, principal: Principal, tenant: TenantContext, request: AuthorizationRequest,
                  attributes: Option<ResourceAttributes>, now: int)
  {
    && d.tenantId == tenant.tenantId && d.delegate == principal.id
    && Carries(d, request.capability, now) && ScopeMatches(d.scope, request, attributes)
  }

  /** A request is allowed exactly when it passes the early checks and either the first rule that applies
      allows it, or no rule applies and an agent is backed by the delegation it was shown with. */
  lemma AllowedExactly(policy: Policy, principal: Principal, tenant: TenantContext, delegation: Option<Delegation>,
                       request: AuthorizationRequest, attributes: Option<ResourceAttributes>, now: int, clock: Option<int>)
    ensures var f := Facts(principal, attributes, clock);
            RequestDecision(Some(policy), Some(principal), Some(tenant), delegation, request, attributes, now, clock).Allow? <==>
            && EarlyDenial(policy, principal, tenant, request, attributes).None?
            && (|| (exists i :: 0 <= i < |policy.rules| && Applies(policy.rules[i], request, f)
                                && policy.rules[i].effect == AllowEffect
                                && forall j :: 0 <= j < i ==> !Applies(policy.rules[j], request, f))
                || ((forall r <- policy.rules :: !Applies(r, request, f))
                    && principal.kind == Agent && delegation.Some?
                    && Backs(delegation.value, principal, tenant, request, attributes, now)))
  {
    hide Holds, EvidenceOf, ClaimBasis, ScopeMatches, Concerns, LastConcerned, EarlyDenial;
    var f := Facts(principal, attributes, clock);
    var first := FirstApplicable(policy, request, f);
    if first.Some? {
      assert policy.rules[first.value] in policy.rules;
    }
  }
}
