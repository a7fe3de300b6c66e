/** What a rule with each kind of condition lets through, said of the two evaluators themselves. */
module ConditionRules {
  import opened Prelude
  import opened Contract
  import opened Evaluator
  import opened EvaluatorComparison

  /** Nothing but the rules stands against the request, and no delegation speaks for it. */
  ghost predicate UpToTheRules(principal: Principal, tenant: TenantContext, request: AuthorizationRequest,
                               attributes: Option<ResourceAttributes>)
  {
    && principal.tenantId == tenant.tenantId && AgentDenial(principal).None?
    && !Misdirected(principal, tenant, request, attributes)
  }

  function OneRule(tenant: TenantContext, rule: Rule): Policy {
    Policy(tenant.policyId, [rule])
  }

  /** The request evaluator allows the request on the strength of one unselective rule with this condition. */
  ghost predicate LetsRequest(c: Condition, principal: Principal, tenant: TenantContext, request: AuthorizationRequest,
                              attributes: Option<ResourceAttributes>, now: int, clock: Option<int>)
  {
    RequestDecision(Some(OneRule(tenant, Rule(request.capability, c, None, None, AllowEffect))), Some(principal), Some(tenant),
                    None, request, attributes, now, clock).Allow?
  }

  /** The capability evaluator does. */
  ghost predicate LetsCapability(c: Condition, principal: Principal, tenant: TenantContext, capability: Capability, now: int,
                                 clock: Option<int>)
  {
    CapabilityDecision(Some(OneRule(tenant, Rule(capability, c, None, None, AllowEffect))), Some(principal), Some(tenant), None,
                       capability, now, clock).Allow?
  }

  lemma RequestLetExactly(c: Condition, principal: Principal, tenant: TenantContext, request: AuthorizationRequest,
                          attributes: Option<ResourceAttributes>, now: int, clock: Option<int>)
    requires UpToTheRules(principal, tenant, request, attributes)
    ensures LetsRequest(c, principal, tenant, request, attributes, now, clock) <==>
            Holds(c, Facts(principal, attributes, clock))
  {
    hide Holds, RequestDecision, Misdirected;
    var rule := Rule(request.capability, c, None, None, AllowEffect);
    var policy, f := OneRule(tenant, rule), Facts(principal, attributes, clock);
    AllowedByFirst(policy, principal, tenant, None, request, attributes, now, clock);
    EarlyExactly(policy, principal, tenant, request, attributes);
    assert Applies(policy.rules[0], request, f) <==> Holds(c, f);
    if Holds(c, f) {
      assert DecidesFirst(policy, request, f, 0, AllowEffect);
    }
  }

  lemma CapabilityLetExactly(c: Condition, principal: Principal, tenant: TenantContext, capability: Capability, now: int,
                             clock: Option<int>)
    requires principal.tenantId == tenant.tenantId && AgentDenial(principal).None?
    ensures LetsCapability(c, principal, tenant, capability, now, clock) <==> Holds(c, Facts(principal, None, clock))
  {
    hide Holds, CapabilityDecision;
    var policy := OneRule(tenant, Rule(capability, c, None, None, AllowEffect));
    CapabilityAllowedExactly(policy, principal, tenant, None, capability, now, clock);
    assert policy.rules[0] in policy.rules;
  }

  /** Which rules of any policy apply to a request comes down to such policies of one rule. */
  lemma AppliesExactly(rule: Rule, principal: Principal, tenant: TenantContext, request: AuthorizationRequest,
                       attributes: Option<ResourceAttributes>, now: int, clock: Option<int>)
    requires UpToTheRules(principal, tenant, request, attributes)
    ensures Applies(rule, request, Facts(principal, attributes, clock)) <==>
            && rule.capability == request.capability && !SelectorMisses(rule, request)
            && LetsRequest(rule.condition, principal, tenant, request, attributes, now, clock)
  {
    hide Holds, LetsRequest;
    RequestLetExactly(rule.condition, principal, tenant, request, attributes, now, clock);
  }

  // ----- Each kind of condition -----------------------------------------------------------------------

  /** A rule that always holds, and one that asks for several conditions. */
  lemma AlwaysAndAll(cs: seq<Condition>, principal: Principal, tenant: TenantContext, request: AuthorizationRequest,
                     attributes: Option<ResourceAttributes>, now: int, clock: Option<int>)
    requires UpToTheRules(principal, tenant, request, attributes)
    ensures LetsRequest(Always, principal, tenant, request, attributes, now, clock)
    ensures LetsRequest(All(cs), principal, tenant, request, attributes, now, clock) <==>
            forall i :: 0 <= i < |cs| ==> LetsRequest(cs[i], principal, tenant, request, attributes, now, clock)
    ensures LetsCapability(All(cs), principal, tenant, request.capability, now, clock) <==>
            forall i :: 0 <= i < |cs| ==> LetsCapability(cs[i], principal, tenant, request.capability, now, clock)
  {
    hide LetsRequest, LetsCapability;
    RequestLetExactly(Always, principal, tenant, request, attributes, now, clock);
    RequestLetExactly(All(cs), principal, tenant, request, attributes, now, clock);
    CapabilityLetExactly(All(cs), principal, tenant, request.capability, now, clock);
    forall i | 0 <= i < |cs|
      ensures LetsRequest(cs[i], principal, tenant, request, attributes, now, clock) <==> Holds(cs[i], Facts(principal, attributes, clock))
      ensures LetsCapability(cs[i], principal, tenant, request.capability, now, clock) <==> Holds(cs[i], Facts(principal, None, clock))
    {
      RequestLetExactly(cs[i], principal, tenant, request, attributes, now, clock);
      CapabilityLetExactly(cs[i], principal, tenant, request.capability, now, clock);
    }
  }

  /** A rule with a time bound lets a request through exactly while the clock is in its closed window, and never without a
      clock. */
  lemma TimeBoundExactly(start: int, end: int, principal: Principal, tenant: TenantContext, request: AuthorizationRequest,
                         attributes: Option<ResourceAttributes>, now: int, clock: Option<int>)
    requires UpToTheRules(principal, tenant, request, attributes)
    ensures LetsRequest(TimeBound(start, end), principal, tenant, request, attributes, now, clock) <==>
            clock.Some? && start <= clock.value && clock.value <= end
    ensures LetsCapability(TimeBound(start, end), principal, tenant, request.capability, now, clock) <==>
            clock.Some? && start <= clock.value && clock.value <= end
  {
    hide LetsRequest, LetsCapability;
    RequestLetExactly(TimeBound(start, end), principal, tenant, request, attributes, now, clock);
    CapabilityLetExactly(TimeBound(start, end), principal, tenant, request.capability, now, clock);
  }

  /** A rule on a claim lets a request through exactly when the principal has the claim with one of the values. */
  lemma ClaimExactly(key: string, values: seq<ClaimValue>, principal: Principal, tenant: TenantContext,
                     request: AuthorizationRequest, attributes: Option<ResourceAttributes>, now: int, clock: Option<int>)
    requires UpToTheRules(principal, tenant, request, attributes)
    ensures LetsRequest(ClaimIn(key, values), principal, tenant, request, attributes, now, clock) <==>
            key in principal.claims && principal.claims[key] in values
    ensures forall v :: LetsRequest(ClaimEquals(key, v), principal, tenant, request, attributes, now, clock) <==>
                        key in principal.claims && principal.claims[key] == v
    ensures LetsCapability(ClaimIn(key, values), principal, tenant, request.capability, now, clock) <==>
            key in principal.claims && principal.claims[key] in values
    ensures forall v :: LetsCapability(ClaimEquals(key, v), principal, tenant, request.capability, now, clock) <==>
                        key in principal.claims && principal.claims[key] == v
  {
    hide LetsRequest, LetsCapability;
    RequestLetExactly(ClaimIn(key, values), principal, tenant, request, attributes, now, clock);
    CapabilityLetExactly(ClaimIn(key, values), principal, tenant, request.capability, now, clock);
    forall v
      ensures LetsRequest(ClaimEquals(key, v), principal, tenant, request, attributes, now, clock) <==>
              key in principal.claims && principal.claims[key] == v
      ensures LetsCapability(ClaimEquals(key, v), principal, tenant, request.capability, now, clock) <==>
              key in principal.claims && principal.claims[key] == v
    {
      RequestLetExactly(ClaimEquals(key, v), principal, tenant, request, attributes, now, clock);
      CapabilityLetExactly(ClaimEquals(key, v), principal, tenant, request.capability, now, clock);
    }
  }

  /** A rule on the current tenant lets a request through exactly when the attributes name the principal's tenant. */
  lemma TenantExactly(principal: Principal, tenant: TenantContext, request: AuthorizationRequest,
                      attributes: Option<ResourceAttributes>, now: int, clock: Option<int>)
    requires UpToTheRules(principal, tenant, request, attributes)
    ensures LetsRequest(TenantCurrent, principal, tenant, request, attributes, now, clock) <==>
            attributes.Some? && attributes.value.tenantId == Some(principal.tenantId)
    ensures !LetsCapability(TenantCurrent, principal, tenant, request.capability, now, clock)
  {
    hide LetsRequest, LetsCapability;
    RequestLetExactly(TenantCurrent, principal, tenant, request, attributes, now, clock);
    CapabilityLetExactly(TenantCurrent, principal, tenant, request.capability, now, clock);
  }

  /** A rule on a resource attribute lets a request through exactly when the resource has it with one of the values, and
      never grants the capability by itself. */
  lemma ResourceExactly(key: string, values: seq<ClaimValue>, principal: Principal, tenant: TenantContext,
                        request: AuthorizationRequest, attributes: Option<ResourceAttributes>, now: int, clock: Option<int>)
    requires UpToTheRules(principal, tenant, request, attributes)
    ensures LetsRequest(ResourceAttributeIn(key, values), principal, tenant, request, attributes, now, clock) <==>
            attributes.Some? && key in attributes.value.values && attributes.value.values[key] in values
    ensures forall v :: LetsRequest(ResourceAttributeEquals(key, v), principal, tenant, request, attributes, now, clock) <==>
                        attributes.Some? && key in attributes.value.values && attributes.value.values[key] == v
    ensures !LetsCapability(ResourceAttributeIn(key, values), principal, tenant, request.capability, now, clock)
    ensures forall v :: !LetsCapability(ResourceAttributeEquals(key, v), principal, tenant, request.capability, now, clock)
  {
    hide LetsRequest, LetsCapability;
    RequestLetExactly(ResourceAttributeIn(key, values), principal, tenant, request, attributes, now, clock);
    CapabilityLetExactly(ResourceAttributeIn(key, values), principal, tenant, request.capability, now, clock);
    forall v
      ensures LetsRequest(ResourceAttributeEquals(key, v), principal, tenant, request, attributes, now, clock) <==>
              attributes.Some? && key in attributes.value.values && attributes.value.values[key] == v
      ensures !LetsCapability(ResourceAttributeEquals(key, v), principal, tenant, request.capability, now, clock)
    {
      RequestLetExactly(ResourceAttributeEquals(key, v), principal, tenant, request, attributes, now, clock);
      CapabilityLetExactly(ResourceAttributeEquals(key, v), principal, tenant, request.capability, now, clock);
    }
  }

  /** A rule on a relationship lets a request through exactly when the attribute of the resource is the principal's own id
      or tenant, as a text, or has the very value of the principal's claim, which it must have. */
  lemma RelationshipExactly(key: string, claim: string, principal: Principal, tenant: TenantContext,
                            request: AuthorizationRequest, attributes: Option<ResourceAttributes>, now: int, clock: Option<int>)
    requires UpToTheRules(principal, tenant, request, attributes)
    ensures LetsRequest(RelationshipEquals(key, OwnId), principal, tenant, request, attributes, now, clock) <==>
            attributes.Some? && key in attributes.value.values && attributes.value.values[key] == ClaimValue.Text(principal.id)
    ensures LetsRequest(RelationshipEquals(key, OwnTenant), principal, tenant, request, attributes, now, clock) <==>
            attributes.Some? && key in attributes.value.values && attributes.value.values[key] == ClaimValue.Text(principal.tenantId)
    ensures LetsRequest(RelationshipEquals(key, OwnClaim(claim)), principal, tenant, request, attributes, now, clock) <==>
            && attributes.Some? && key in attributes.value.values && claim in principal.claims
            && attributes.value.values[key] == principal.claims[claim]
    ensures forall a :: !LetsCapability(RelationshipEquals(key, a), principal, tenant, request.capability, now, clock)
  {
    hide LetsRequest, LetsCapability;
    RequestLetExactly(RelationshipEquals(key, OwnId), principal, tenant, request, attributes, now, clock);
    RequestLetExactly(RelationshipEquals(key, OwnTenant), principal, tenant, request, attributes, now, clock);
    RequestLetExactly(RelationshipEquals(key, OwnClaim(claim)), principal, tenant, request, attributes, now, clock);
    forall a ensures !LetsCapability(RelationshipEquals(key, a), principal, tenant, request.capability, now, clock) {
      CapabilityLetExactly(RelationshipEquals(key, a), principal, tenant, request.capability, now, clock);
    }
  }
}
