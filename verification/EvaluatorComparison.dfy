/** Where the capability evaluator, which looks at a rule's capability and condition alone, and the request
    evaluator, which also looks at its effect, action and resource, part ways. */
module EvaluatorComparison {
  import opened Prelude
  import opened Contract
  import opened Evaluator

  /** Learning about the resource never makes a condition fail that held without. */
  lemma {:induction false} HoldsWithoutResource(c: Condition, principal: Principal, attributes: Option<ResourceAttributes>,
                                                clock: Option<int>)
    ensures Holds(c, Facts(principal, None, clock)) ==> Holds(c, Facts(principal, attributes, clock))
    decreases c
  {
    if c.All? {
      forall i | 0 <= i < |c.conditions|
        ensures Holds(c.conditions[i], Facts(principal, None, clock)) ==> Holds(c.conditions[i], Facts(principal, attributes, clock))
      {
        HoldsWithoutResource(c.conditions[i], principal, attributes, clock);
      }
    }
  }

  /** A live delegation of this principal in this tenant carries the capability. */
  predicate HeldByDelegation(principal: Principal, tenant: TenantContext, delegation: Option<Delegation>,
                             capability: Capability, now: int)
  {
    && principal.kind == Agent && delegation.Some? && delegation.value.tenantId == tenant.tenantId
    && delegation.value.delegate == principal.id && Carries(delegation.value, capability, now)
  }

  /** Some rule names the capability and its condition holds without looking at the resource. */
  predicate NamedAndMet(policy: Policy, principal: Principal, capability: Capability, clock: Option<int>) {
    exists r <- policy.rules :: r.capability == capability && Holds(r.condition, Facts(principal, None, clock))
  }

  /** What the capability evaluator looks at. */
  predicate CapabilityMet(policy: Policy, principal: Principal, tenant: TenantContext, delegation: Option<Delegation>,
                          capability: Capability, now: int, clock: Option<int>)
  {
    && principal.tenantId == tenant.tenantId && policy.id == tenant.policyId && AgentDenial(principal).None?
    && (NamedAndMet(policy, principal, capability, clock)
        || HeldByDelegation(principal, tenant, delegation, capability, now))
  }

  lemma CapabilityAllowedExactly(policy: Policy, principal: Principal, tenant: TenantContext,
                                 delegation: Option<Delegation>, capability: Capability, now: int, clock: Option<int>)
    ensures CapabilityDecision(Some(policy), Some(principal), Some(tenant), delegation, capability, now, clock).Allow? <==>
            CapabilityMet(policy, principal, tenant, delegation, capability, now, clock)
  {
    hide Holds, EvidenceOf, ClaimBasis;
    var i := GrantingRule(policy, principal, capability, clock);
    if i.Some? {
      assert policy.rules[i.value] in policy.rules;
    }
  }

  // ----- One request ------------------------------------------------------------------------------

  /** The rule names another action or another resource. */
  predicate SelectorMisses(rule: Rule, request: AuthorizationRequest) {
    || (rule.action.Some? && rule.action.value != request.action)
    || (rule.resource.Some? && (request.resource.None? || !rule.resource.value.Matches(request.resource.value)))
  }

  /** When a rule that grants the capability does not count for the request, it is because it is about another
      action or another resource; its condition cannot be the reason. */
  lemma OnlySelectorsHoldBack(rule: Rule, principal: Principal, request: AuthorizationRequest,
                              attributes: Option<ResourceAttributes>, clock: Option<int>)
    requires rule.capability == request.capability && Holds(rule.condition, Facts(principal, None, clock))
    ensures !Applies(rule, request, Facts(principal, attributes, clock)) <==>
            SelectorMisses(rule, request)
  {
    hide Holds;
    HoldsWithoutResource(rule.condition, principal, attributes, clock);
  }

  /** The request is somebody else's, or for another tenant, or its resource is another tenant's. */
  predicate Misdirected(principal: Principal, tenant: TenantContext, request: AuthorizationRequest,
                        attributes: Option<ResourceAttributes>)
  {
    || request.principal != principal.id || request.tenant != tenant.tenantId
    || (request.resource.Some? &&
        tenant.tenantId != (if attributes.Some? && attributes.value.tenantId.Some?
                            then attributes.value.tenantId.value else request.resource.value.tenantId))
  }

  /** The rule at `i` is the first that applies, and this is its effect. */
  predicate DecidesFirst(policy: Policy, request: AuthorizationRequest, f: Facts, i: nat, effect: Effect) {
    && i < |policy.rules| && Applies(policy.rules[i], request, f) && policy.rules[i].effect == effect
    && forall j :: 0 <= j < i ==> !Applies(policy.rules[j], request, f)
  }

  /** The first rule that applies has this effect. */
  predicate FirstIs(policy: Policy, request: AuthorizationRequest, f: Facts, effect: Effect) {
    exists i | 0 <= i < |policy.rules| :: DecidesFirst(policy, request, f, i, effect)
  }

  /** A request is allowed exactly when it passes the early checks and the first rule that applies allows it, or no
      rule applies and an agent is backed by its delegation. */
  lemma AllowedByFirst(policy: Policy, principal: Principal, tenant: TenantContext, delegation: Option<Delegation>,
                       request: AuthorizationRequest, attributes: Option<ResourceAttributes>, now: int, clock: Option<int>)
    ensures var f := Facts(principal, attributes, clock);
            RequestDecision(Some(policy), Some(principal), Some(tenant), delegation, request, attributes, now, clock).Allow? <==>
            && EarlyDenial(policy, principal, tenant, request, attributes).None?
            && (|| FirstIs(policy, request, f, AllowEffect)
                || ((forall r <- policy.rules :: !Applies(r, request, f))
                    && principal.kind == Agent && delegation.Some?
                    && Backs(delegation.value, principal, tenant, request, attributes, now)))
  {
    hide RequestDecision, Applies, EarlyDenial, Backs;
    var f := Facts(principal, attributes, clock);
    AllowedExactly(policy, principal, tenant, delegation, request, attributes, now, clock);
    if i :| 0 <= i < |policy.rules| && Applies(policy.rules[i], request, f) && policy.rules[i].effect == AllowEffect
            && forall j :: 0 <= j < i ==> !Applies(policy.rules[j], request, f)
    {
      assert DecidesFirst(policy, request, f, i, AllowEffect);
    }
  }

  /** Every rule that grants the capability by itself, and every one that does thanks to the resource, is about
      another action or another resource. */
  predicate EveryRuleMisses(policy: Policy, principal: Principal, request: AuthorizationRequest,
                            attributes: Option<ResourceAttributes>, clock: Option<int>)
  {
    && (forall r <- policy.rules ::
          r.capability == request.capability && Holds(r.condition, Facts(principal, None, clock)) ==> SelectorMisses(r, request))
    && (forall r <- policy.rules ::
          (&& r.capability == request.capability && !Holds(r.condition, Facts(principal, None, clock))
           && Holds(r.condition, Facts(principal, attributes, clock))) ==> SelectorMisses(r, request))
  }

  /** A capability that is held does not help: the request is misdirected, or the first rule that applies denies, or
      the selectors of all rules miss and the delegation, if it is what the capability is held by, does not cover
      the request. */
  predicate HeldInVain(policy: Policy, principal: Principal, tenant: TenantContext, delegation: Option<Delegation>,
                       request: AuthorizationRequest, attributes: Option<ResourceAttributes>, now: int, clock: Option<int>)
  {
    && CapabilityMet(policy, principal, tenant, delegation, request.capability, now, clock)
    && (|| Misdirected(principal, tenant, request, attributes)
        || FirstIs(policy, request, Facts(principal, attributes, clock), DenyEffect)
        || (EveryRuleMisses(policy, principal, request, attributes, clock)
            && (HeldByDelegation(principal, tenant, delegation, request.capability, now) ==>
                  !ScopeMatches(delegation.value.scope, request, attributes))))
  }

  /** A request is allowed thanks to its resource: no rule for the capability holds without it, no delegation carries
      it, and the first rule that applies allows. */
  predicate AllowedByResource(policy: Policy, principal: Principal, tenant: TenantContext, delegation: Option<Delegation>,
                              request: AuthorizationRequest, attributes: Option<ResourceAttributes>, now: int,
                              clock: Option<int>)
  {
    && principal.tenantId == tenant.tenantId && policy.id == tenant.policyId && AgentDenial(principal).None?
    && !Misdirected(principal, tenant, request, attributes)
    && !HeldByDelegation(principal, tenant, delegation, request.capability, now)
    && (forall r <- policy.rules :: r.capability == request.capability ==> !Holds(r.condition, Facts(principal, None, clock)))
    && FirstIs(policy, request, Facts(principal, attributes, clock), AllowEffect)
  }

  /** A capability is allowed and the request for it refused exactly when it is held in vain. */
  lemma HeldInVainExactly(policy: Policy, principal: Principal, tenant: TenantContext, delegation: Option<Delegation>,
                          request: AuthorizationRequest, attributes: Option<ResourceAttributes>, now: int, clock: Option<int>)
    ensures HeldInVain(policy, principal, tenant, delegation, request, attributes, now, clock) <==>
            && CapabilityDecision(Some(policy), Some(principal), Some(tenant), delegation, request.capability, now, clock).Allow?
            && !RequestDecision(Some(policy), Some(principal), Some(tenant), delegation, request, attributes, now, clock).Allow?
  {
    hide Holds, ScopeMatches, CapabilityDecision, RequestDecision, Concerns, Applies, EarlyDenial, Misdirected, EveryRuleMisses,
         Carries;
    var f := Facts(principal, attributes, clock);
    CapabilityAllowedExactly(policy, principal, tenant, delegation, request.capability, now, clock);
    AllowedByFirst(policy, principal, tenant, delegation, request, attributes, now, clock);
    EarlyExactly(policy, principal, tenant, request, attributes);
    FirstDecides(policy, request, f);
    NoneApplies(policy, principal, request, attributes, clock);
    BacksIsHeld(principal, tenant, delegation, request, attributes, now);
  }

  /** A capability is refused and the request for it allowed exactly when it is allowed by its resource. */
  lemma AllowedByResourceExactly(policy: Policy, principal: Principal, tenant: TenantContext, delegation: Option<Delegation>,
                                 request: AuthorizationRequest, attributes: Option<ResourceAttributes>, now: int,
                                 clock: Option<int>)
    ensures AllowedByResource(policy, principal, tenant, delegation, request, attributes, now, clock) <==>
            && !CapabilityDecision(Some(policy), Some(principal), Some(tenant), delegation, request.capability, now, clock).Allow?
            && RequestDecision(Some(policy), Some(principal), Some(tenant), delegation, request, attributes, now, clock).Allow?
  {
    hide Holds, ScopeMatches, CapabilityDecision, RequestDecision, Concerns, Applies, EarlyDenial, Misdirected, Carries;
    var f := Facts(principal, attributes, clock);
    CapabilityAllowedExactly(policy, principal, tenant, delegation, request.capability, now, clock);
    AllowedByFirst(policy, principal, tenant, delegation, request, attributes, now, clock);
    EarlyExactly(policy, principal, tenant, request, attributes);
    FirstDecides(policy, request, f);
    BacksIsHeld(principal, tenant, delegation, request, attributes, now);
  }

  /** Both evaluators allow, or neither does. */
  predicate AllowAlike(policy: Policy, principal: Principal, tenant: TenantContext, delegation: Option<Delegation>,
                       request: AuthorizationRequest, attributes: Option<ResourceAttributes>, now: int, clock: Option<int>)
  {
    CapabilityDecision(Some(policy), Some(principal), Some(tenant), delegation, request.capability, now, clock).Allow? <==>
    RequestDecision(Some(policy), Some(principal), Some(tenant), delegation, request, attributes, now, clock).Allow?
  }

  /** So the two allow a request and its capability alike exactly when the capability is not held in vain and the
      request not allowed by its resource alone. */
  lemma AllowAlikeExactly(policy: Policy, principal: Principal, tenant: TenantContext, delegation: Option<Delegation>,
                          request: AuthorizationRequest, attributes: Option<ResourceAttributes>, now: int, clock: Option<int>)
    ensures AllowAlike(policy, principal, tenant, delegation, request, attributes, now, clock) <==>
            && !HeldInVain(policy, principal, tenant, delegation, request, attributes, now, clock)
            && !AllowedByResource(policy, principal, tenant, delegation, request, attributes, now, clock)
  {
    hide HeldInVain, AllowedByResource, CapabilityDecision, RequestDecision;
    HeldInVainExactly(policy, principal, tenant, delegation, request, attributes, now, clock);
    AllowedByResourceExactly(policy, principal, tenant, delegation, request, attributes, now, clock);
  }

  lemma EarlyExactly(policy: Policy, principal: Principal, tenant: TenantContext, request: AuthorizationRequest,
                     attributes: Option<ResourceAttributes>)
    ensures EarlyDenial(policy, principal, tenant, request, attributes).None? <==>
            && principal.tenantId == tenant.tenantId && policy.id == tenant.policyId && AgentDenial(principal).None?
            && !Misdirected(principal, tenant, request, attributes)
  {
  }

  lemma BacksIsHeld(principal: Principal, tenant: TenantContext, delegation: Option<Delegation>,
                    request: AuthorizationRequest, attributes: Option<ResourceAttributes>, now: int)
    ensures principal.kind == Agent && delegation.Some? && Backs(delegation.value, principal, tenant, request, attributes, now) <==>
            HeldByDelegation(principal, tenant, delegation, request.capability, now)
            && ScopeMatches(delegation.value.scope, request, attributes)
  {
    hide ScopeMatches, Carries;
  }

  /** Either no rule applies or there is a first one that does. */
  lemma FirstDecides(policy: Policy, request: AuthorizationRequest, f: Facts)
    ensures (exists r <- policy.rules :: Applies(r, request, f)) <==>
            FirstIs(policy, request, f, AllowEffect) || FirstIs(policy, request, f, DenyEffect)
    ensures !(FirstIs(policy, request, f, AllowEffect) && FirstIs(policy, request, f, DenyEffect))
  {
    hide Applies;
    var first := FirstApplicable(policy, request, f);
    if first.Some? {
      assert policy.rules[first.value] in policy.rules;
      assert DecidesFirst(policy, request, f, first.value, policy.rules[first.value].effect);
    }
  }

  lemma NoneApplies(policy: Policy, principal: Principal, request: AuthorizationRequest,
                    attributes: Option<ResourceAttributes>, clock: Option<int>)
    ensures EveryRuleMisses(policy, principal, request, attributes, clock) <==>
            forall r <- policy.rules :: !Applies(r, request, Facts(principal, attributes, clock))
  {
    hide Holds;
    forall r | r in policy.rules
      ensures Holds(r.condition, Facts(principal, None, clock)) ==> Holds(r.condition, Facts(principal, attributes, clock))
      ensures Concerns(r, request) <==> r.capability == request.capability && !SelectorMisses(r, request)
    {
      HoldsWithoutResource(r.condition, principal, attributes, clock);
    }
  }

  // ----- Every request ----------------------------------------------------------------------------

  /** The rule is for this capability and its condition holds. */
  predicate Met(rule: Rule, capability: Capability, f: Facts) {
    rule.capability == capability && Holds(rule.condition, f)
  }

  predicate IsWild(selector: ResourceSelector) {
    selector.resourceId.None? || selector.resourceId.value == "*"
  }

  /** The selectors of the first rule are no narrower than those of the second. */
  predicate Covers(wide: Rule, narrow: Rule) {
    && (wide.action.Some? ==> wide.action == narrow.action)
    && (wide.resource.Some? ==>
          && narrow.resource.Some? && wide.resource.value.resourceType == narrow.resource.value.resourceType
          && (IsWild(wide.resource.value) || wide.resource.value.resourceId == narrow.resource.value.resourceId))
  }

  /** The attributes are those of a resource of another tenant, so that no resource may be named with them. */
  predicate Foreign(tenant: TenantContext, attributes: Option<ResourceAttributes>) {
    attributes.Some? && attributes.value.tenantId.Some? && attributes.value.tenantId.value != tenant.tenantId
  }

  /** Every rule of this effect that is met, and that some request can reach, comes after a rule of the other effect
      that is met and covers it. */
  predicate Overruled(policy: Policy, capability: Capability, f: Facts, foreign: bool, effect: Effect) {
    forall j | 0 <= j < |policy.rules| ::
      Met(policy.rules[j], capability, f) && policy.rules[j].effect == effect && (foreign ==> policy.rules[j].resource.None?) ==>
      exists i | 0 <= i < j ::
        Met(policy.rules[i], capability, f) && policy.rules[i].effect != effect && Covers(policy.rules[i], policy.rules[j])
  }

  /** Some rule that is met names neither an action nor a resource. */
  predicate SomeUnselective(policy: Policy, capability: Capability, f: Facts) {
    exists r <- policy.rules :: Met(r, capability, f) && r.action.None? && r.resource.None?
  }

  /** What the rules must be like for the two evaluators to allow every request for a capability alike. */
  predicate AlikeRules(policy: Policy, principal: Principal, tenant: TenantContext, capability: Capability,
                       attributes: Option<ResourceAttributes>, clock: Option<int>)
  {
    var f, foreign := Facts(principal, attributes, clock), Foreign(tenant, attributes);
    if NamedAndMet(policy, principal, capability, clock)
    then SomeUnselective(policy, capability, f) && Overruled(policy, capability, f, foreign, DenyEffect)
    else Overruled(policy, capability, f, foreign, AllowEffect)
  }

  /** For a principal that is no agent the two evaluators allow every request for a capability alike exactly when: if
      some rule grants the capability by itself, an unselective rule is met and every denying rule is overruled
      before it is reached; and if none does, every allowing rule is. */
  lemma AlwaysAlikeExactly(policy: Policy, principal: Principal, tenant: TenantContext, delegation: Option<Delegation>,
                           capability: Capability, attributes: Option<ResourceAttributes>, now: int, clock: Option<int>)
    requires principal.tenantId == tenant.tenantId && policy.id == tenant.policyId && principal.kind != Agent
    ensures (forall request: AuthorizationRequest :: request.capability == capability && !Misdirected(principal, tenant, request, attributes) ==>
               AllowAlike(policy, principal, tenant, delegation, request, attributes, now, clock))
            <==> AlikeRules(policy, principal, tenant, capability, attributes, clock)
  {
    hide CapabilityDecision, RequestDecision, AlikeRules, Misdirected, NamedAndMet, Holds, FirstIs;
    var f, foreign := Facts(principal, attributes, clock), Foreign(tenant, attributes);
    CapabilityAllowedExactly(policy, principal, tenant, delegation, capability, now, clock);
    var held := NamedAndMet(policy, principal, capability, clock);
    assert CapabilityDecision(Some(policy), Some(principal), Some(tenant), delegation, capability, now, clock).Allow? <==> held;
    forall request: AuthorizationRequest | request.capability == capability && !Misdirected(principal, tenant, request, attributes)
      ensures AllowAlike(policy, principal, tenant, delegation, request, attributes, now, clock) <==>
              (FirstIs(policy, request, f, AllowEffect) <==> held)
    {
      PersonAllowedExactly(policy, principal, tenant, delegation, request, attributes, now, clock);
    }
    ghost var alike := forall request: AuthorizationRequest ::
                         request.capability == capability && !Misdirected(principal, tenant, request, attributes) ==>
                           (FirstIs(policy, request, f, AllowEffect) <==> held);
    if AlikeRules(policy, principal, tenant, capability, attributes, clock) {
      forall request: AuthorizationRequest | request.capability == capability && !Misdirected(principal, tenant, request, attributes)
        ensures FirstIs(policy, request, f, AllowEffect) <==> held
      {
        RulesDecideAlike(policy, principal, tenant, request, attributes, clock);
      }
    }
    if alike {
      if held {
        UnselectiveIsNeeded(policy, principal, tenant, capability, attributes, clock);
      }
      OverrulingIsNeeded(policy, principal, tenant, capability, attributes, clock, if held then DenyEffect else AllowEffect);
      RulesMake(policy, principal, tenant, capability, attributes, clock);
    }
  }

  lemma RulesMake(policy: Policy, principal: Principal, tenant: TenantContext, capability: Capability,
                  attributes: Option<ResourceAttributes>, clock: Option<int>)
    requires var f, foreign := Facts(principal, attributes, clock), Foreign(tenant, attributes);
             if NamedAndMet(policy, principal, capability, clock)
             then SomeUnselective(policy, capability, f) && Overruled(policy, capability, f, foreign, DenyEffect)
             else Overruled(policy, capability, f, foreign, AllowEffect)
    ensures AlikeRules(policy, principal, tenant, capability, attributes, clock)
  {
  }

  lemma PersonAllowedExactly(policy: Policy, principal: Principal, tenant: TenantContext, delegation: Option<Delegation>,
                             request: AuthorizationRequest, attributes: Option<ResourceAttributes>, now: int, clock: Option<int>)
    requires principal.tenantId == tenant.tenantId && policy.id == tenant.policyId && principal.kind != Agent
    requires !Misdirected(principal, tenant, request, attributes)
    ensures RequestDecision(Some(policy), Some(principal), Some(tenant), delegation, request, attributes, now, clock).Allow? <==>
            FirstIs(policy, request, Facts(principal, attributes, clock), AllowEffect)
  {
    hide RequestDecision, Applies, EarlyDenial, Backs, Misdirected;
    AllowedByFirst(policy, principal, tenant, delegation, request, attributes, now, clock);
    EarlyExactly(policy, principal, tenant, request, attributes);
  }

  /** A rule that covers an applicable one, and is met, applies too. */
  lemma CoveringApplies(wide: Rule, narrow: Rule, request: AuthorizationRequest, f: Facts)
    requires Covers(wide, narrow) && Met(wide, request.capability, f) && Applies(narrow, request, f)
    ensures Applies(wide, request, f)
  {
    hide Holds;
  }

  /** No rule of an overruled effect is the first to apply. */
  lemma OverruledIsNotFirst(policy: Policy, principal: Principal, tenant: TenantContext, request: AuthorizationRequest,
                            attributes: Option<ResourceAttributes>, clock: Option<int>, effect: Effect)
    requires !Misdirected(principal, tenant, request, attributes)
    requires Overruled(policy, request.capability, Facts(principal, attributes, clock), Foreign(tenant, attributes), effect)
    ensures !FirstIs(policy, request, Facts(principal, attributes, clock), effect)
  {
    hide Holds, Covers;
    var f := Facts(principal, attributes, clock);
    if FirstIs(policy, request, f, effect) {
      var j :| 0 <= j < |policy.rules| && DecidesFirst(policy, request, f, j, effect);
      var i :| 0 <= i < j && Met(policy.rules[i], request.capability, f) && policy.rules[i].effect != effect
               && Covers(policy.rules[i], policy.rules[j]);
      CoveringApplies(policy.rules[i], policy.rules[j], request, f);
    }
  }

  lemma RulesDecideAlike(policy: Policy, principal: Principal, tenant: TenantContext, request: AuthorizationRequest,
                         attributes: Option<ResourceAttributes>, clock: Option<int>)
    requires !Misdirected(principal, tenant, request, attributes)
    requires AlikeRules(policy, principal, tenant, request.capability, attributes, clock)
    ensures FirstIs(policy, request, Facts(principal, attributes, clock), AllowEffect) <==>
            NamedAndMet(policy, principal, request.capability, clock)
  {
    hide Holds, Overruled, Misdirected, NamedAndMet, Foreign;
    var f := Facts(principal, attributes, clock);
    if NamedAndMet(policy, principal, request.capability, clock) {
      OverruledIsNotFirst(policy, principal, tenant, request, attributes, clock, DenyEffect);
      var r :| r in policy.rules && Met(r, request.capability, f) && r.action.None? && r.resource.None?;
      assert Applies(r, request, f);
      FirstDecides(policy, request, f);
    } else {
      OverruledIsNotFirst(policy, principal, tenant, request, attributes, clock, AllowEffect);
    }
  }

  /** A name that no rule mentions. */
  ghost predicate Unused(policy: Policy, name: string) {
    forall r <- policy.rules ::
      r.action != Some(name) && (r.resource.Some? ==> r.resource.value.resourceId != Some(name))
  }

  lemma {:induction false} LongName(rules: seq<Rule>) returns (n: nat)
    ensures forall r <- rules ::
              && (r.action.Some? ==> |r.action.value| < n)
              && (r.resource.Some? && r.resource.value.resourceId.Some? ==> |r.resource.value.resourceId.value| < n)
  {
    if rules == [] {
      n := 0;
    } else {
      var init, last := rules[..|rules| - 1], rules[|rules| - 1];
      n := LongName(init);
      var a := if last.action.Some? then |last.action.value| + 1 else 0;
      var b := if last.resource.Some? && last.resource.value.resourceId.Some? then |last.resource.value.resourceId.value| + 1 else 0;
      n := n + a + b;
      assert rules == init + [last];
    }
  }

  lemma UnusedName(policy: Policy) returns (name: string)
    ensures Unused(policy, name)
  {
    var n := LongName(policy.rules);
    name := seq(n, i => 'x');
  }

  /** A request that only the rules covering this one are about. */
  function Probe(rule: Rule, principal: Principal, tenant: TenantContext, name: string): AuthorizationRequest {
    AuthorizationRequest(
      principal.id, tenant.tenantId, rule.capability, if rule.action.Some? then rule.action.value else name,
      match rule.resource
      case None => None
      case Some(selector) =>
        Some(ResourceRef(selector.resourceType, if IsWild(selector) then name else selector.resourceId.value, tenant.tenantId)))
  }

  lemma ProbeFindsCovering(policy: Policy, rule: Rule, principal: Principal, tenant: TenantContext, name: string, other: Rule)
    requires Unused(policy, name) && other in policy.rules && Concerns(other, Probe(rule, principal, tenant, name))
    ensures Covers(other, rule)
  {
  }

  lemma ProbeIsDirected(rule: Rule, principal: Principal, tenant: TenantContext, name: string,
                        attributes: Option<ResourceAttributes>, f: Facts)
    requires Met(rule, rule.capability, f) && (Foreign(tenant, attributes) ==> rule.resource.None?)
    ensures !Misdirected(principal, tenant, Probe(rule, principal, tenant, name), attributes)
    ensures Applies(rule, Probe(rule, principal, tenant, name), f)
  {
    hide Holds;
  }

  lemma OverrulingIsNeeded(policy: Policy, principal: Principal, tenant: TenantContext, capability: Capability,
                           attributes: Option<ResourceAttributes>, clock: Option<int>, effect: Effect)
    requires forall request: AuthorizationRequest :: request.capability == capability && !Misdirected(principal, tenant, request, attributes) ==>
               (FirstIs(policy, request, Facts(principal, attributes, clock), AllowEffect) <==> effect == DenyEffect)
    ensures Overruled(policy, capability, Facts(principal, attributes, clock), Foreign(tenant, attributes), effect)
  {
    hide Holds, Covers, Foreign, Misdirected, Concerns, FirstIs;
    var f, foreign := Facts(principal, attributes, clock), Foreign(tenant, attributes);
    var name := UnusedName(policy);
    forall j | 0 <= j < |policy.rules| && Met(policy.rules[j], capability, f) && policy.rules[j].effect == effect
               && (foreign ==> policy.rules[j].resource.None?)
      ensures exists i | 0 <= i < j ::
                Met(policy.rules[i], capability, f) && policy.rules[i].effect != effect && Covers(policy.rules[i], policy.rules[j])
    {
      var request := Probe(policy.rules[j], principal, tenant, name);
      ProbeIsDirected(policy.rules[j], principal, tenant, name, attributes, f);
      var i := FirstOfOther(policy, request, f, j, effect);
      assert policy.rules[i] in policy.rules;
      ProbeFindsCovering(policy, policy.rules[j], principal, tenant, name, policy.rules[i]);
    }
  }

  /** When a rule applies but its effect is not what is decided, an earlier rule of the other effect decides. */
  lemma FirstOfOther(policy: Policy, request: AuthorizationRequest, f: Facts, j: nat, effect: Effect) returns (i: nat)
    requires j < |policy.rules| && Applies(policy.rules[j], request, f) && policy.rules[j].effect == effect
    requires FirstIs(policy, request, f, AllowEffect) <==> effect == DenyEffect
    ensures i < j && DecidesFirst(policy, request, f, i, if effect == DenyEffect then AllowEffect else DenyEffect)
    ensures Met(policy.rules[i], request.capability, f) && Concerns(policy.rules[i], request)
  {
    hide Holds;
    var first := FirstApplicable(policy, request, f);
    i := first.value;
    assert DecidesFirst(policy, request, f, i, policy.rules[i].effect);
    FirstDecides(policy, request, f);
  }

  lemma UnselectiveIsNeeded(policy: Policy, principal: Principal, tenant: TenantContext, capability: Capability,
                            attributes: Option<ResourceAttributes>, clock: Option<int>)
    requires forall request: AuthorizationRequest :: request.capability == capability && !Misdirected(principal, tenant, request, attributes) ==>
               FirstIs(policy, request, Facts(principal, attributes, clock), AllowEffect)
    ensures SomeUnselective(policy, capability, Facts(principal, attributes, clock))
  {
    hide Holds;
    var f := Facts(principal, attributes, clock);
    var name := UnusedName(policy);
    var request := AuthorizationRequest(principal.id, tenant.tenantId, capability, name, None);
    assert !Misdirected(principal, tenant, request, attributes);
    var i :| 0 <= i < |policy.rules| && DecidesFirst(policy, request, f, i, AllowEffect);
    assert policy.rules[i] in policy.rules;
  }

  /** The rules for a capability allow and name neither action nor resource, and their conditions do not depend
      on one. */
  ghost predicate PlainFor(policy: Policy, principal: Principal, capability: Capability, clock: Option<int>) {
    forall r <- policy.rules :: r.capability == capability ==>
      && r.effect == AllowEffect && r.action.None? && r.resource.None?
      && (Holds(r.condition, Facts(principal, None, clock)) <==>
          exists attributes :: Holds(r.condition, Facts(principal, attributes, clock)))
  }

  /** For a principal that is no agent the two allow every request for a capability alike, with whatever
      resource, if the rules for the capability are plain. */
  lemma PlainRulesAllowAlike(policy: Policy, principal: Principal, tenant: TenantContext, delegation: Option<Delegation>,
                             request: AuthorizationRequest, attributes: Option<ResourceAttributes>, now: int, clock: Option<int>)
    requires EarlyDenial(policy, principal, tenant, request, attributes).None? && principal.kind != Agent
    requires PlainFor(policy, principal, request.capability, clock)
    ensures AllowAlike(policy, principal, tenant, delegation, request, attributes, now, clock)
  {
    hide Holds, EvidenceOf, ScopeMatches, CapabilityDecision, RequestDecision, EarlyDenial;
    var f := Facts(principal, attributes, clock);
    EarlyExactly(policy, principal, tenant, request, attributes);
    CapabilityAllowedExactly(policy, principal, tenant, delegation, request.capability, now, clock);
    PersonAllowedExactly(policy, principal, tenant, delegation, request, attributes, now, clock);
    if NamedAndMet(policy, principal, request.capability, clock) {
      var r :| r in policy.rules && r.capability == request.capability && Holds(r.condition, Facts(principal, None, clock));
      HoldsWithoutResource(r.condition, principal, attributes, clock);
      ApplierIsFound(policy, request, f, r);
    }
    var first := FirstApplicable(policy, request, f);
    if first.Some? {
      var r := policy.rules[first.value];
      assert r in policy.rules && Holds(r.condition, f);
      assert DecidesFirst(policy, request, f, first.value, AllowEffect);
    }
  }

  lemma ApplierIsFound(policy: Policy, request: AuthorizationRequest, f: Facts, r: Rule)
    requires r in policy.rules && Applies(r, request, f)
    ensures FirstApplicable(policy, request, f).Some?
  {
    var i :| 0 <= i < |policy.rules| && policy.rules[i] == r;
    assert Applies(policy.rules[i], request, f);
  }

  // ----- Inputs on which they differ ----------------------------------------------------------------

  const SOMEONE := Principal("u", Human, "t", map[], None)
  const HOME := TenantContext("t", "p")
  const DENYING := Policy("p", [Rule("a", Always, None, None, DenyEffect)])

  /** A policy whose only rule denies a capability grants it, by itself and in the envelope, and denies every
      request for it. */
  lemma DenyingRuleGrants(now: int, clock: Option<int>, action: Action)
    ensures CapabilityDecision(Some(DENYING), Some(SOMEONE), Some(HOME), None, "a", now, clock).Allow?
    ensures HeldGrant(Envelope(DENYING, SOMEONE, HOME, [], now, clock), "a").Some?
    ensures var d := RequestDecision(Some(DENYING), Some(SOMEONE), Some(HOME), None,
                                     AuthorizationRequest("u", "t", "a", action, None), None, now, clock);
            d.Deny? && d.reason == PolicyDenied
  {
    var rule := DENYING.rules[0];
    assert Holds(rule.condition, Facts(SOMEONE, None, clock));
    assert rule in DENYING.rules;
    CapabilityAllowedExactly(DENYING, SOMEONE, HOME, None, "a", now, clock);
    HeldGrantIs(DENYING, SOMEONE, HOME, [], "a", now, clock);
    assert GrantingRule(DENYING, SOMEONE, "a", clock).Some?;
    var request := AuthorizationRequest("u", "t", "a", action, None);
    assert Applies(rule, request, Facts(SOMEONE, None, clock));
    assert FirstApplicable(DENYING, request, Facts(SOMEONE, None, clock)) == Some(0);
  }

  const WORKER := Principal("w", Service, "t", map[], None)
  const EMPTY := Policy("p", [])
  const LENT := Delegation("d", "h", "w", "t", ["a"], ResourceScope(None, None, map[]), 0, None, None, [])

  /** A service that holds a capability by a live delegation alone finds it in its envelope and is denied it. */
  lemma ServiceHoldsWhatItIsDenied(now: nat, clock: Option<int>)
    ensures HeldGrant(Envelope(EMPTY, WORKER, HOME, [LENT], now, clock), "a").Some?
    ensures PickDelegation([LENT], "a", now) == Some(LENT)
    ensures CapabilityDecision(Some(EMPTY), Some(WORKER), Some(HOME), Some(LENT), "a", now, clock).Deny?
  {
    assert LENT.IsValidAt(now) && Carries(LENT, "a", now);
    HeldGrantIs(EMPTY, WORKER, HOME, [LENT], "a", now, clock);
    CapabilityAllowedExactly(EMPTY, WORKER, HOME, Some(LENT), "a", now, clock);
    assert [LENT][0] == LENT;
  }
}
