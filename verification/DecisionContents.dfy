/** What the decisions of the two evaluators contain: whose grant, by what rule or delegation, on what evidence, and why
    not. */
module DecisionContents {
  import opened Prelude
  import opened Contract
  import opened Evaluator
  import opened EvaluatorComparison

  // ----- Evidence and basis -------------------------------------------------------------------------

  /** The conditions that are not lists of conditions, from left to right. */
  function Leaves(c: Condition): seq<Condition>
    decreases c, 0
  {
    if c.All? then LeavesFrom(c.conditions, 0) else [c]
  }

  function LeavesFrom(cs: seq<Condition>, i: nat): seq<Condition>
    requires i <= |cs|
    decreases cs, |cs| - i
  {
    if i == |cs| then [] else Leaves(cs[i]) + LeavesFrom(cs, i + 1)
  }

  ghost predicate Witnesses(evidence: seq<ConditionEvidence>, leaves: seq<Condition>, f: Facts) {
    && |evidence| == |leaves|
    && forall i :: 0 <= i < |leaves| ==> evidence[i] == ConditionEvidence(leaves[i], Holds(leaves[i], f))
  }

  lemma WitnessesJoin(a: seq<ConditionEvidence>, b: seq<ConditionEvidence>, s: seq<Condition>, t: seq<Condition>, f: Facts)
    requires Witnesses(a, s, f) && Witnesses(b, t, f)
    ensures Witnesses(a + b, s + t, f)
  {
    hide Holds;
  }

  /** The evidence has one entry for each leaf, in order, saying whether it holds. */
  lemma {:induction false} EvidenceIsOfLeaves(c: Condition, f: Facts)
    ensures Witnesses(EvidenceOf(c, f), Leaves(c), f)
    decreases c, 0
  {
    hide Holds;
    if c.All? {
      EvidenceFromLeft(c.conditions, |c.conditions|, f);
    }
  }

  lemma {:induction false} LeavesSplit(cs: seq<Condition>, i: nat, n: nat) returns (left: seq<Condition>)
    requires i <= n <= |cs|
    ensures LeavesFrom(cs, i) == left + LeavesFrom(cs, n)
    ensures left == LeavesBetween(cs, i, n)
    decreases n - i
  {
    left := LeavesBetween(cs, i, n);
    if i < n {
      var rest := LeavesSplit(cs, i + 1, n);
      assert Leaves(cs[i]) + (rest + LeavesFrom(cs, n)) == Leaves(cs[i]) + rest + LeavesFrom(cs, n);
    }
  }

  function LeavesBetween(cs: seq<Condition>, i: nat, n: nat): seq<Condition>
    requires i <= n <= |cs|
    decreases n - i
  {
    if i == n then [] else Leaves(cs[i]) + LeavesBetween(cs, i + 1, n)
  }

  lemma {:induction false} BetweenAppends(cs: seq<Condition>, i: nat, n: nat)
    requires i <= n < |cs|
    ensures LeavesBetween(cs, i, n + 1) == LeavesBetween(cs, i, n) + Leaves(cs[n])
    decreases n - i
  {
    if i == n {
      assert LeavesBetween(cs, n + 1, n + 1) == [];
    } else {
      BetweenAppends(cs, i + 1, n);
    }
  }

  lemma {:induction false} EvidenceUpToIs(cs: seq<Condition>, n: nat, f: Facts)
    requires n <= |cs|
    ensures Witnesses(EvidenceUpTo(cs, n, f), LeavesBetween(cs, 0, n), f)
    decreases cs, n
  {
    hide Holds;
    if n > 0 {
      EvidenceUpToIs(cs, n - 1, f);
      EvidenceIsOfLeaves(cs[n - 1], f);
      BetweenAppends(cs, 0, n - 1);
      WitnessesJoin(EvidenceUpTo(cs, n - 1, f), EvidenceOf(cs[n - 1], f), LeavesBetween(cs, 0, n - 1), Leaves(cs[n - 1]), f);
    }
  }

  lemma {:induction false} EvidenceFromLeft(cs: seq<Condition>, n: nat, f: Facts)
    requires n == |cs|
    ensures Witnesses(EvidenceUpTo(cs, n, f), LeavesFrom(cs, 0), f)
    decreases cs, n + 1
  {
    hide Holds;
    EvidenceUpToIs(cs, n, f);
    var left := LeavesSplit(cs, 0, n);
    assert LeavesFrom(cs, n) == [];
    assert left + [] == left;
  }

  /** The two agree on whatever the basis of a grant names. */
  ghost predicate AgreeOn(basis: seq<string>, f: Facts, g: Facts) {
    && f.principal.id == g.principal.id && f.principal.tenantId == g.principal.tenantId
    && (forall key <- basis :: f.Claim(key) == g.Claim(key))
    && (forall key :: "resource." + key in basis ==> f.ResourceValue(key) == g.ResourceValue(key))
    && ("time" in basis ==> f.clock == g.clock)
    && ("tenant=current" in basis ==>
          (if f.resource.Some? then f.resource.value.tenantId else None) == (if g.resource.Some? then g.resource.value.tenantId else None))
  }

  /** No leaf compares the resource with a claim of the principal. */
  predicate NoClaimRelation(c: Condition) {
    forall leaf <- Leaves(c) :: leaf.RelationshipEquals? ==> !leaf.attribute.OwnClaim?
  }

  lemma {:induction false} LeavesInside(cs: seq<Condition>, i: nat, leaf: Condition)
    requires i < |cs| && leaf in Leaves(cs[i])
    ensures leaf in LeavesFrom(cs, 0)
  {
    var before := LeavesSplit(cs, 0, i);
    assert LeavesFrom(cs, i) == Leaves(cs[i]) + LeavesFrom(cs, i + 1);
  }

  lemma {:induction false} BasisInside(cs: seq<Condition>, i: nat, n: nat)
    requires i < n <= |cs|
    ensures forall key <- ClaimBasis(cs[i]) :: key in ClaimBasisUpTo(cs, n)
    decreases n
  {
    if i < n - 1 {
      BasisInside(cs, i, n - 1);
    }
  }

  /** The basis names all that a condition looks at, but for claims it compares with the resource. */
  lemma {:induction false} BasisDecides(c: Condition, f: Facts, g: Facts)
    requires NoClaimRelation(c) && AgreeOn(ClaimBasis(c), f, g)
    ensures Holds(c, f) <==> Holds(c, g)
    decreases c
  {
    match c {
      case All(cs) =>
        forall i | 0 <= i < |cs| ensures Holds(cs[i], f) <==> Holds(cs[i], g) {
          BasisInside(cs, i, |cs|);
          forall leaf | leaf in Leaves(cs[i]) ensures leaf in Leaves(c) {
            LeavesInside(cs, i, leaf);
          }
          BasisDecides(cs[i], f, g);
        }
      case ResourceAttributeEquals(key, _) => assert "resource." + key in ClaimBasis(c);
      case ResourceAttributeIn(key, _) => assert "resource." + key in ClaimBasis(c);
      case RelationshipEquals(key, attribute) =>
        assert c in Leaves(c);
        assert "resource." + key in ClaimBasis(c);
      case _ =>
    }
  }

  /** With such a comparison it does not: the basis stays the same while the claim decides. */
  lemma BasisOmitsComparedClaim()
    ensures var c := RelationshipEquals("owner", OwnClaim("team"));
            var resource := Some(ResourceAttributes(None, map["owner" := ClaimValue.Text("red")]));
            var f := Facts(Principal("u", Human, "t", map["team" := ClaimValue.Text("red")], None), resource, None);
            var g := Facts(Principal("u", Human, "t", map["team" := ClaimValue.Text("blue")], None), resource, None);
            AgreeOn(ClaimBasis(c), f, g) && Holds(c, f) && !Holds(c, g)
  {
    assert "resource.owner" != "team" && ["resource.owner"][0] == "resource.owner";
    var c := RelationshipEquals("owner", OwnClaim("team"));
    assert ClaimBasis(c) == ["resource." + "owner"] && "resource." + "owner" == "resource.owner";
    assert |"resource.owner"| != |"team"| && |"resource.owner"| != |"time"|;
  }

  // ----- The capability evaluator -------------------------------------------------------------------

  /** The first rule that names the capability and is met without a resource. */
  ghost predicate GrantsFirst(policy: Policy, principal: Principal, capability: Capability, clock: Option<int>, i: nat) {
    && i < |policy.rules| && policy.rules[i].capability == capability && Holds(policy.rules[i].condition, Facts(principal, None, clock))
    && forall j :: 0 <= j < i ==> !(policy.rules[j].capability == capability && Holds(policy.rules[j].condition, Facts(principal, None, clock)))
  }

  /** An allowed capability is granted to the caller, by the first rule met, on its basis, or else by the delegation shown,
      with its line and its delegator; nothing is said about a resource or an action. */
  lemma CapabilityGrantIs(policy: Policy, principal: Principal, tenant: TenantContext, delegation: Option<Delegation>,
                          capability: Capability, now: int, clock: Option<int>)
    ensures var d := CapabilityDecision(Some(policy), Some(principal), Some(tenant), delegation, capability, now, clock);
            d.Allow? ==>
              && d.grant.capability == capability && d.grant.policyId == policy.id && d.grant.tenantId == tenant.tenantId
              && d.grant.principalId == principal.id && d.grant.principalKind == principal.kind
              && d.resource.None? && d.action.None? && d.auditEventId.None?
              && (forall i: nat :: GrantsFirst(policy, principal, capability, clock, i) ==>
                    var basis := ClaimBasis(policy.rules[i].condition);
                    && d.grant.authority == ByClaim && d.grant.claimBasis == basis
                    && d.grant.delegationId.None? && d.grant.delegationChain == [] && d.grant.delegatedBy.None?
                    && |d.matchedRules| == |basis| && (forall k :: 0 <= k < |basis| ==> d.matchedRules[k] == BasisRule(basis[k]))
                    && d.conditions == EvidenceOf(policy.rules[i].condition, Facts(principal, None, clock)))
              && ((forall i: nat :: !GrantsFirst(policy, principal, capability, clock, i)) ==>
                    && delegation.Some? && IsDelegated(d.grant, delegation.value)
                    && d.matchedRules == [DelegationRule] && d.conditions == [])
  {
    hide Holds, EvidenceOf, ClaimBasis, DelegationDenial, AgentDenial;
    var first := GrantingRule(policy, principal, capability, clock);
    if first.Some? {
      assert GrantsFirst(policy, principal, capability, clock, first.value);
      forall i: nat | GrantsFirst(policy, principal, capability, clock, i) ensures i == first.value {
      }
    }
    if principal.kind == Agent && delegation.None? {
      NoneIsDenied(principal, tenant, capability, now);
    }
  }

  lemma NoneIsDenied(principal: Principal, tenant: TenantContext, capability: Capability, now: int)
    ensures DelegationDenial(principal, tenant, None, capability, now) == Some(DelegationMissing)
  {
  }

  ghost predicate IsDelegated(g: GrantedCapability, d: Delegation) {
    && g.authority == ByDelegation && g.claimBasis == ["delegation:" + d.delegator] && g.delegationId == Some(d.id)
    && g.delegationChain == d.chain + [d.id] && g.delegatedBy == Some(d.delegator)
  }

  /** Why a delegation shown does not back an agent: none names the capability, it is another's, or it is no longer, or not
      yet, live. */
  ghost function DelegationReason(principal: Principal, tenant: TenantContext, delegation: Option<Delegation>,
                                  capability: Capability, now: int): Option<DenialReason>
  {
    if delegation.None? then Some(DelegationMissing)
    else if delegation.value.tenantId != tenant.tenantId || delegation.value.delegate != principal.id then Some(InvalidDelegation)
    else if delegation.value.revokedAt.Some? then Some(RevokedDelegation)
    else if now < delegation.value.issuedAt || (delegation.value.expiresAt.Some? && delegation.value.expiresAt.value <= now)
    then Some(ExpiredDelegation)
    else if capability !in delegation.value.capabilities then Some(DelegationMissing) else None
  }

  /** Why an agent may not act at all. */
  ghost function AgentReason(principal: Principal): Option<DenialReason> {
    if principal.kind != Agent || principal.agentState == Some(Active) then None
    else if principal.agentState == Some(Suspended) then Some(AgentSuspended)
    else if principal.agentState in {Some(Revoked), Some(Retired)} then Some(AgentRevoked)
    else Some(UnknownPrincipal)
  }

  lemma ReasonsAre(principal: Principal, tenant: TenantContext, delegation: Option<Delegation>, capability: Capability, now: int)
    ensures DelegationDenial(principal, tenant, delegation, capability, now) ==
            DelegationReason(principal, tenant, delegation, capability, now)
    ensures AgentDenial(principal) == AgentReason(principal)
  {
  }

  /** A refused capability is refused for the first reason there is. */
  lemma CapabilityReasonIs(policy: Policy, principal: Principal, tenant: TenantContext, delegation: Option<Delegation>,
                           capability: Capability, now: int, clock: Option<int>)
    ensures var d := CapabilityDecision(Some(policy), Some(principal), Some(tenant), delegation, capability, now, clock);
            d.Deny? ==>
              && d == DenyPlain(d.reason)
              && d.reason ==
                   if principal.tenantId != tenant.tenantId || policy.id != tenant.policyId then TenantMismatch
                   else if AgentReason(principal).Some? then AgentReason(principal).value
                   else if principal.kind != Agent then CapabilityNotGranted
                   else if DelegationReason(principal, tenant, delegation, capability, now).Some?
                        then DelegationReason(principal, tenant, delegation, capability, now).value else d.reason
  {
    hide Holds, EvidenceOf, ClaimBasis, DelegationDenial, AgentDenial, DelegationReason, AgentReason;
    ReasonsAre(principal, tenant, delegation, capability, now);
  }

  lemma PlainDenialSaysLittle(reason: DenialReason)
    ensures DenyPlain(reason) == Deny(reason, None, None, None, None, [], [], None)
  {
  }

  // ----- The request evaluator ----------------------------------------------------------------------

  /** An allowed request is granted to the caller for its resource and action, by the first rule that applies with its
      evidence, or by the delegation shown. */
  lemma RequestGrantIs(policy: Policy, principal: Principal, tenant: TenantContext, delegation: Option<Delegation>,
                       request: AuthorizationRequest, attributes: Option<ResourceAttributes>, now: int, clock: Option<int>)
    ensures var (d, f) := (RequestDecision(Some(policy), Some(principal), Some(tenant), delegation, request, attributes, now, clock),
                           Facts(principal, attributes, clock));
            d.Allow? ==>
              && d.grant.capability == request.capability && d.grant.policyId == policy.id && d.grant.tenantId == tenant.tenantId
              && d.grant.principalId == principal.id && d.grant.principalKind == principal.kind
              && d.resource == request.resource && d.action == Some(request.action) && d.auditEventId.None?
              && (forall i: nat :: DecidesFirst(policy, request, f, i, AllowEffect) ==>
                    && d.grant.authority == ByClaim && d.grant.claimBasis == ClaimBasis(policy.rules[i].condition)
                    && d.grant.delegationId.None? && d.grant.delegationChain == [] && d.grant.delegatedBy.None?
                    && d.matchedRules == [RuleAt(i)] && d.conditions == EvidenceOf(policy.rules[i].condition, f))
              && (!FirstIs(policy, request, f, AllowEffect) ==>
                    && delegation.Some? && IsDelegated(d.grant, delegation.value)
                    && d.matchedRules == [DelegationRule] && d.conditions == [])
  {
    hide Holds, EvidenceOf, ClaimBasis, DelegationDenial, EarlyDenial, ScopeMatches, Applies, LastConcerned;
    var f := Facts(principal, attributes, clock);
    var first := FirstApplicable(policy, request, f);
    if first.Some? {
      FirstApplies(policy, request, f);
      assert DecidesFirst(policy, request, f, first.value, policy.rules[first.value].effect);
      forall i: nat | DecidesFirst(policy, request, f, i, AllowEffect) ensures i == first.value {
      }
    }
    if principal.kind == Agent && delegation.None? {
      NoneIsDenied(principal, tenant, request.capability, now);
    }
  }

  lemma FirstApplies(policy: Policy, request: AuthorizationRequest, f: Facts)
    ensures var first := FirstApplicable(policy, request, f);
            && (first.Some? ==> Applies(policy.rules[first.value], request, f)
                                && forall j :: 0 <= j < first.value ==> !Applies(policy.rules[j], request, f))
            && (first.None? ==> forall j :: 0 <= j < |policy.rules| ==> !Applies(policy.rules[j], request, f))
  {
    hide Applies;
  }

  /** Why a request is refused: the first reason there is, with the evidence that goes with it. */
  lemma RequestReasonIs(policy: Policy, principal: Principal, tenant: TenantContext, delegation: Option<Delegation>,
                        request: AuthorizationRequest, attributes: Option<ResourceAttributes>, now: int, clock: Option<int>)
    ensures var (d, f) := (RequestDecision(Some(policy), Some(principal), Some(tenant), delegation, request, attributes, now, clock),
                           Facts(principal, attributes, clock));
            d.Deny? ==>
              && d.capability == Some(request.capability) && d.resource == request.resource && d.action == Some(request.action)
              && d.policyId == Some(policy.id) && d.auditEventId.None?
              && (if || principal.tenantId != tenant.tenantId || policy.id != tenant.policyId
                     || Misdirected(principal, tenant, request, attributes)
                  then d.reason == TenantMismatch && d.matchedRules == [] && d.conditions == []
                  else if AgentReason(principal).Some?
                  then Some(d.reason) == AgentReason(principal) && d.matchedRules == [] && d.conditions == []
                  else if FirstIs(policy, request, f, DenyEffect)
                  then d.reason == PolicyDenied
                       && exists i: nat :: DecidesFirst(policy, request, f, i, DenyEffect) && d.matchedRules == [RuleAt(i)]
                                           && d.conditions == EvidenceOf(policy.rules[i].condition, f)
                  else if principal.kind == Agent
                  then && d.matchedRules == [] && d.conditions == []
                       && Some(d.reason) == (if DelegationReason(principal, tenant, delegation, request.capability, now).Some?
                                             then DelegationReason(principal, tenant, delegation, request.capability, now)
                                             else Some(DelegationScopeDenied))
                  else
                    && d.matchedRules == []
                    && (if exists i :: 0 <= i < |policy.rules| && ConcernsLast(policy, request, i)
                        then d.reason == ConditionFailed
                             && exists i :: 0 <= i < |policy.rules| && ConcernsLast(policy, request, i)
                                            && d.conditions == EvidenceOf(policy.rules[i].condition, f)
                        else d.reason == CapabilityNotGranted && d.conditions == []))
  {
    hide Holds, EvidenceOf, ClaimBasis, DelegationDenial, AgentDenial, EarlyDenial, ScopeMatches, Applies, Concerns, DelegationReason,
         AgentReason, Misdirected;
    var f := Facts(principal, attributes, clock);
    ReasonsAre(principal, tenant, delegation, request.capability, now);
    EarlyReasonIs(policy, principal, tenant, request, attributes);
    FirstApplies(policy, request, f);
    var first, last := FirstApplicable(policy, request, f), LastConcerned(policy, request);
    if first.Some? {
      assert DecidesFirst(policy, request, f, first.value, policy.rules[first.value].effect);
    }
    LastConcerns(policy, request);
    if last.Some? {
      assert ConcernsLast(policy, request, last.value);
    }
  }

  /** The last rule that is about the request, whether or not it is met. */
  ghost predicate ConcernsLast(policy: Policy, request: AuthorizationRequest, i: nat)
    requires i < |policy.rules|
  {
    Concerns(policy.rules[i], request) && forall j :: i < j < |policy.rules| ==> !Concerns(policy.rules[j], request)
  }

  lemma LastConcerns(policy: Policy, request: AuthorizationRequest)
    ensures var last := LastConcerned(policy, request);
            && (last.Some? ==> ConcernsLast(policy, request, last.value))
            && (last.None? ==> forall i :: 0 <= i < |policy.rules| ==> !ConcernsLast(policy, request, i))
  {
    hide Concerns;
  }

  lemma EarlyReasonIs(policy: Policy, principal: Principal, tenant: TenantContext, request: AuthorizationRequest,
                      attributes: Option<ResourceAttributes>)
    ensures EarlyDenial(policy, principal, tenant, request, attributes) ==
            if || principal.tenantId != tenant.tenantId || policy.id != tenant.policyId
               || Misdirected(principal, tenant, request, attributes) then Some(TenantMismatch)
            else AgentDenial(principal)
  {
  }
}
