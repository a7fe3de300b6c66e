/** Compiles declared policies into evaluator rules, and shows that their meaning survives. */
module PolicyCompiler {
  import opened Prelude
  import opened Contract
  import opened Evaluator
  import opened Declaration
  import opened Sorting

  function EnumValues(values: seq<string>): (r: seq<ClaimValue>)
    ensures |r| == |values| && forall i :: 0 <= i < |r| ==> r[i] == Enum(values[i])
  {
    seq(|values|, i requires 0 <= i < |values| => Enum(values[i]))
  }

  function CompileClaim(c: PolicyClaimCondition): Condition {
    var values := EnumValues(c.values);
    if |values| == 1 then ClaimEquals(c.claim, values[0]) else ClaimIn(c.claim, values)
  }

  function CompileClaims(claims: seq<PolicyClaimCondition>): (r: seq<Condition>)
    ensures |r| == |claims| && forall i :: 0 <= i < |r| ==> r[i] == CompileClaim(claims[i])
  {
    seq(|claims|, i requires 0 <= i < |claims| => CompileClaim(claims[i]))
  }

  function CompileConditions(def: PolicyDef): seq<Condition> {
    (if def.tenantCurrent then [TenantCurrent] else []) + CompileClaims(def.claims)
  }

  function CompileRule(def: PolicyDef): Rule {
    var conditions := CompileConditions(def);
    Rule(def.capability,
         if |conditions| == 0 then Always else if |conditions| == 1 then conditions[0] else All(conditions),
         if def.resource.Some? then Some(ResourceSelector(def.resource.value, None)) else None,
         def.action, AllowEffect)
  }

  function CompileRules(defs: seq<PolicyDef>): (r: seq<Rule>)
    ensures |r| == |defs| && forall i :: 0 <= i < |r| ==> r[i] == CompileRule(defs[i])
  {
    seq(|defs|, i requires 0 <= i < |defs| => CompileRule(defs[i]))
  }

  function CompilePolicy(defs: seq<PolicyDef>, tenant: TenantContext): Option<Policy> {
    if defs == [] then None else Some(Policy(tenant.policyId, CompileRules(defs)))
  }

  method PolicyFromConfig(defs: seq<PolicyDef>, tenant: TenantContext) returns (policy: Option<Policy>)
    ensures policy == CompilePolicy(defs, tenant)
  {
    if defs == [] {
      return None;
    }
    var rules := [];
    for i := 0 to |defs|
      invariant |rules| == i && forall j :: 0 <= j < i ==> rules[j] == CompileRule(defs[j])
    {
      var def, conditions := defs[i], [];
      if def.tenantCurrent {
        conditions := conditions + [TenantCurrent];
      }
      for k := 0 to |def.claims|
        invariant conditions == (if def.tenantCurrent then [TenantCurrent] else []) + CompileClaims(def.claims[..k])
      {
        var claim, values := def.claims[k], [];
        for m := 0 to |claim.values|
          invariant values == EnumValues(claim.values[..m])
        {
          values := values + [Enum(claim.values[m])];
        }
        assert claim.values[..|claim.values|] == claim.values;
        if |values| == 1 {
          conditions := conditions + [ClaimEquals(claim.claim, values[0])];
        } else {
          conditions := conditions + [ClaimIn(claim.claim, values)];
        }
      }
      assert def.claims[..|def.claims|] == def.claims;
      var condition;
      if |conditions| == 0 {
        condition := Always;
      } else if |conditions| == 1 {
        condition := conditions[0];
      } else {
        condition := All(conditions);
      }
      rules := rules + [Rule(def.capability, condition,
                             if def.resource.Some? then Some(ResourceSelector(def.resource.value, None)) else None,
                             def.action, AllowEffect)];
    }
    assert rules == CompileRules(defs);
    policy := Some(Policy(tenant.policyId, rules));
  }

  // ----- Meaning --------------------------------------------------------------------------------

  /** What a declared policy asks of a request, read off the declaration itself. */
  predicate Satisfied(def: PolicyDef, request: AuthorizationRequest, f: Facts) {
    && def.capability == request.capability
    && (def.action.Some? ==> def.action.value == request.action)
    && (def.resource.Some? ==> request.resource.Some? && request.resource.value.resourceType == def.resource.value)
    && (def.tenantCurrent ==> f.resource.Some? && f.resource.value.tenantId == Some(f.principal.tenantId))
    && forall c <- def.claims :: ClaimMet(c, f)
  }

  predicate ClaimMet(c: PolicyClaimCondition, f: Facts) {
    exists v <- c.values :: f.Claim(c.claim) == Some(Enum(v))
  }

  lemma CompileClaimMeans(c: PolicyClaimCondition, f: Facts)
    ensures Holds(CompileClaim(c), f) <==> ClaimMet(c, f)
  {
    var values := EnumValues(c.values);
    if |values| == 1 {
      assert c.values == [c.values[0]];
      assert c.values[0] in c.values;
    } else if f.Claim(c.claim).Some? {
      var actual := f.Claim(c.claim).value;
      if actual in values {
        var i :| 0 <= i < |values| && values[i] == actual;
        assert c.values[i] in c.values;
      }
      if v :| v in c.values && actual == Enum(v) {
        var i :| 0 <= i < |c.values| && c.values[i] == v;
        assert values[i] == actual;
      }
    }
  }

  /** The entry passes when the claim condition is met, and asks for the value where one is listed and for one of them
      otherwise. */
  ghost predicate ShowsClaim(e: ConditionEvidence, c: PolicyClaimCondition, f: Facts) {
    && (e.pass <==> ClaimMet(c, f))
    && (if |c.values| == 1 then e.condition == ClaimEquals(c.claim, Enum(c.values[0]))
        else && e.condition.ClaimIn? && e.condition.key == c.claim && |e.condition.values| == |c.values|
             && forall k :: 0 <= k < |c.values| ==> e.condition.values[k] == Enum(c.values[k]))
  }

  lemma ClaimShows(c: PolicyClaimCondition, f: Facts)
    ensures ShowsClaim(ConditionEvidence(CompileClaim(c), Holds(CompileClaim(c), f)), c, f) && !CompileClaim(c).All?
  {
    hide Holds, ClaimMet;
    CompileClaimMeans(c, f);
  }

  lemma TenantShows(f: Facts)
    ensures Holds(TenantCurrent, f) <==> f.resource.Some? && f.resource.value.tenantId == Some(f.principal.tenantId)
    ensures Holds(Always, f)
  {
  }

  lemma NothingNested(def: PolicyDef)
    ensures forall c <- CompileConditions(def) :: !c.All?
  {
    hide EnumValues;
  }

  lemma ConditionsAre(def: PolicyDef)
    ensures var (conditions, marks) := (CompileConditions(def), if def.tenantCurrent then 1 else 0);
            && |conditions| == marks + |def.claims| && (def.tenantCurrent ==> conditions[0] == TenantCurrent)
            && forall i :: 0 <= i < |def.claims| ==> conditions[marks + i] == CompileClaim(def.claims[i])
  {
    hide CompileClaim;
  }

  /** One entry for each compiled condition. */
  lemma ShownAre(def: PolicyDef, f: Facts)
    ensures var (conditions, shown) := (CompileConditions(def), EvidenceOf(CompileRule(def).condition, f));
            if conditions == [] then shown == [ConditionEvidence(Always, Holds(Always, f))]
            else |shown| == |conditions|
                 && forall i :: 0 <= i < |shown| ==> shown[i] == ConditionEvidence(conditions[i], Holds(conditions[i], f))
  {
    hide Holds, CompileConditions;
    var conditions := CompileConditions(def);
    NothingNested(def);
    if |conditions| > 1 {
      LeavesShow(conditions, |conditions|, f);
    }
  }

  /** What a decision shows of a declared policy: for the tenant mark and for each claim condition in turn an entry that
      passes when it is met; a policy without any shows one entry that passes. */
  lemma EvidenceShows(def: PolicyDef, f: Facts)
    ensures var (shown, marks) := (EvidenceOf(CompileRule(def).condition, f), if def.tenantCurrent then 1 else 0);
            if marks + |def.claims| == 0 then shown == [ConditionEvidence(Always, true)]
            else
              && |shown| == marks + |def.claims|
              && (def.tenantCurrent ==>
                    shown[0].condition == TenantCurrent
                    && (shown[0].pass <==> f.resource.Some? && f.resource.value.tenantId == Some(f.principal.tenantId)))
              && forall i :: 0 <= i < |def.claims| ==> ShowsClaim(shown[marks + i], def.claims[i], f)
  {
    hide Holds, ShowsClaim, CompileClaim, CompileRule, CompileConditions, EvidenceOf;
    var shown, marks := EvidenceOf(CompileRule(def).condition, f), if def.tenantCurrent then 1 else 0;
    ConditionsAre(def);
    ShownAre(def, f);
    TenantShows(f);
    if marks + |def.claims| > 0 {
      forall i | 0 <= i < |def.claims| ensures ShowsClaim(shown[marks + i], def.claims[i], f) {
        ClaimShows(def.claims[i], f);
      }
    }
  }

  lemma {:induction false} LeavesShow(conditions: seq<Condition>, n: nat, f: Facts)
    requires n <= |conditions| && forall c <- conditions :: !c.All?
    ensures |EvidenceUpTo(conditions, n, f)| == n
    ensures forall i :: 0 <= i < n ==> EvidenceUpTo(conditions, n, f)[i] == ConditionEvidence(conditions[i], Holds(conditions[i], f))
  {
    hide Holds;
    if n > 0 {
      LeavesShow(conditions, n - 1, f);
    }
  }

  predicate HoldEach(conditions: seq<Condition>, f: Facts) {
    forall c <- conditions :: Holds(c, f)
  }

  lemma CompileClaimsMean(claims: seq<PolicyClaimCondition>, f: Facts)
    ensures HoldEach(CompileClaims(claims), f) <==> forall c <- claims :: ClaimMet(c, f)
  {
    var conditions := CompileClaims(claims);
    forall i | 0 <= i < |claims| ensures Holds(conditions[i], f) <==> ClaimMet(claims[i], f) {
      CompileClaimMeans(claims[i], f);
    }
    if forall c <- claims :: ClaimMet(c, f) {
      forall i | 0 <= i < |conditions| ensures Holds(conditions[i], f) {
        assert claims[i] in claims;
      }
    }
    if HoldEach(conditions, f) {
      forall c | c in claims ensures ClaimMet(c, f) {
        var i :| 0 <= i < |claims| && claims[i] == c;
        assert conditions[i] in conditions;
      }
    }
  }

  lemma AllOfThem(conditions: seq<Condition>, f: Facts)
    ensures Holds(if |conditions| == 0 then Always else if |conditions| == 1 then conditions[0] else All(conditions), f)
            <==> HoldEach(conditions, f)
  {
    if |conditions| > 1 && Holds(All(conditions), f) {
      forall c | c in conditions ensures Holds(c, f) {
        var i :| 0 <= i < |conditions| && conditions[i] == c;
      }
    }
  }

  /** The compiled condition means what the declaration says. */
  lemma CompileConditionMeans(def: PolicyDef, f: Facts)
    ensures Holds(CompileRule(def).condition, f) <==>
            && (def.tenantCurrent ==> Holds(TenantCurrent, f))
            && forall c <- def.claims :: ClaimMet(c, f)
  {
    var claims := CompileClaims(def.claims);
    CompileClaimsMean(def.claims, f);
    AllOfThem(CompileConditions(def), f);
    if def.tenantCurrent {
      assert HoldEach([TenantCurrent] + claims, f) <==> Holds(TenantCurrent, f) && HoldEach(claims, f) by {
        assert forall c :: c in [TenantCurrent] + claims <==> c == TenantCurrent || c in claims;
      }
    } else {
      assert CompileConditions(def) == claims;
    }
  }

  ghost predicate DistinctCapabilities(defs: seq<PolicyDef>) {
    forall i, j :: 0 <= i < j < |defs| ==> defs[i].capability != defs[j].capability
  }

  lemma CompiledRuleApplies(def: PolicyDef, request: AuthorizationRequest, f: Facts)
    ensures Applies(CompileRule(def), request, f) <==> Satisfied(def, request, f)
  {
    CompileConditionMeans(def, f);
  }

  /** A request that passes the early checks is granted by a rule exactly when the one declared policy for
      its capability is satisfied. */
  lemma CompilationPreservesMeaning(defs: seq<PolicyDef>, principal: Principal, tenant: TenantContext,
                                    delegation: Option<Delegation>, request: AuthorizationRequest,
                                    attributes: Option<ResourceAttributes>, now: int, clock: Option<int>)
    requires defs != [] && DistinctCapabilities(defs)
    ensures var policy := CompilePolicy(defs, tenant);
            var d := RequestDecision(policy, Some(principal), Some(tenant), delegation, request, attributes, now, clock);
            (d.Allow? && d.grant.authority == ByClaim) <==>
            && EarlyDenial(policy.value, principal, tenant, request, attributes).None?
            && exists def <- defs :: Satisfied(def, request, Facts(principal, attributes, clock))
    ensures forall p <- defs, q <- defs :: p.capability == request.capability == q.capability ==> p == q
  {
    hide Satisfied, Applies, CompileConditions, EarlyDenial, DelegationDenial, EvidenceOf, ClaimBasis, ScopeMatches, LastConcerned;
    var f := Facts(principal, attributes, clock);
    var rules := CompileRules(defs);
    forall i | 0 <= i < |defs|
      ensures Applies(rules[i], request, f) <==> Satisfied(defs[i], request, f)
    {
      CompiledRuleApplies(defs[i], request, f);
    }
    var first := FirstApplicable(Policy(tenant.policyId, rules), request, f);
    if first.Some? {
      assert defs[first.value] in defs;
    } else {
      forall def | def in defs ensures !Satisfied(def, request, f) {
        var i :| 0 <= i < |defs| && defs[i] == def;
        assert !Applies(rules[i], request, f);
      }
    }
  }

  /** The declared policies that name a capability, by position. */
  lemma SameRuleFound(a: seq<PolicyDef>, b: seq<PolicyDef>, request: AuthorizationRequest, f: Facts,
                      pa: Policy, pb: Policy)
    requires DistinctCapabilities(a) && DistinctCapabilities(b) && multiset(a) == multiset(b)
    requires pa.rules == CompileRules(a) && pb.rules == CompileRules(b)
    ensures var (i, j) := (FirstApplicable(pa, request, f), FirstApplicable(pb, request, f));
            (i.Some? <==> j.Some?) && (i.Some? ==> pa.rules[i.value] == pb.rules[j.value])
    ensures var (i, j) := (LastConcerned(pa, request), LastConcerned(pb, request));
            (i.Some? <==> j.Some?) && (i.Some? ==> pa.rules[i.value] == pb.rules[j.value])
  {
    Transfer(a, b, request, pa, pb);
    Transfer(b, a, request, pb, pa);
  }

  lemma Transfer(a: seq<PolicyDef>, b: seq<PolicyDef>, request: AuthorizationRequest, pa: Policy, pb: Policy)
    requires DistinctCapabilities(b) && multiset(a) == multiset(b)
    requires pa.rules == CompileRules(a) && pb.rules == CompileRules(b)
    ensures forall i :: 0 <= i < |a| ==> pa.rules[i] in pb.rules
    ensures forall i, j :: 0 <= i < |a| && 0 <= j < |b| && pa.rules[i].capability == pb.rules[j].capability ==>
              pa.rules[i] == pb.rules[j]
  {
    forall i | 0 <= i < |a|
      ensures pa.rules[i] in pb.rules
      ensures forall j :: 0 <= j < |b| && pa.rules[i].capability == pb.rules[j].capability ==> pa.rules[i] == pb.rules[j]
    {
      assert a[i] in multiset(b);
      var k :| 0 <= k < |b| && b[k] == a[i];
      assert pb.rules[k] == pa.rules[i];
    }
  }

  /** Two policies whose searches find the same rules decide alike, up to the rule label. */
  lemma SameRulesSameDecision(pa: Policy, pb: Policy, principal: Principal, tenant: TenantContext,
                              delegation: Option<Delegation>, request: AuthorizationRequest,
                              attributes: Option<ResourceAttributes>, now: int, clock: Option<int>)
    requires pa.id == pb.id
    requires var f := Facts(principal, attributes, clock);
             var (i, j) := (FirstApplicable(pa, request, f), FirstApplicable(pb, request, f));
             (i.Some? <==> j.Some?) && (i.Some? ==> pa.rules[i.value] == pb.rules[j.value])
    requires var (i, j) := (LastConcerned(pa, request), LastConcerned(pb, request));
             (i.Some? <==> j.Some?) && (i.Some? ==> pa.rules[i.value] == pb.rules[j.value])
    ensures var da := RequestDecision(Some(pa), Some(principal), Some(tenant), delegation, request, attributes, now, clock);
            var db := RequestDecision(Some(pb), Some(principal), Some(tenant), delegation, request, attributes, now, clock);
            da.(matchedRules := []) == db.(matchedRules := [])
  {
    hide FirstApplicable, LastConcerned, EvidenceOf, EarlyDenial, RuleDecision, FallbackDecision;
    var f := Facts(principal, attributes, clock);
    SameBesideRules(pa, pb, principal, tenant, delegation, request, attributes, now);
    if EarlyDenial(pa, principal, tenant, request, attributes).None? {
      var i, j := FirstApplicable(pa, request, f), FirstApplicable(pb, request, f);
      if i.Some? {
        SameRuleDecision(pa, pb, principal, tenant, request, f, i.value, j.value);
      } else {
        var m, n := LastConcerned(pa, request), LastConcerned(pb, request);
        assert m.Some? ==> EvidenceOf(pa.rules[m.value].condition, f) == EvidenceOf(pb.rules[n.value].condition, f);
      }
    }
  }

  /** What is decided without looking at a rule depends on the policy's id alone. */
  lemma SameBesideRules(pa: Policy, pb: Policy, principal: Principal, tenant: TenantContext, delegation: Option<Delegation>,
                        request: AuthorizationRequest, attributes: Option<ResourceAttributes>, now: int)
    requires pa.id == pb.id
    ensures EarlyDenial(pa, principal, tenant, request, attributes) == EarlyDenial(pb, principal, tenant, request, attributes)
    ensures forall failed ::
              FallbackDecision(pa, principal, tenant, delegation, request, attributes, now, failed).(matchedRules := []) ==
              FallbackDecision(pb, principal, tenant, delegation, request, attributes, now, failed).(matchedRules := [])
    ensures forall reason :: DenyFor(request, reason, Some(pa), []) == DenyFor(request, reason, Some(pb), [])
  {
  }

  lemma SameRuleDecision(pa: Policy, pb: Policy, principal: Principal, tenant: TenantContext, request: AuthorizationRequest,
                         f: Facts, i: nat, j: nat)
    requires pa.id == pb.id && i < |pa.rules| && j < |pb.rules| && pa.rules[i] == pb.rules[j]
    ensures RuleDecision(pa, principal, tenant, request, f, i).(matchedRules := []) ==
            RuleDecision(pb, principal, tenant, request, f, j).(matchedRules := [])
  {
    hide EvidenceOf;
  }

  /** Reordering declared policies, as `canonical` does, changes nothing but the rule label. */
  lemma OrderOfPoliciesIsImmaterial(a: seq<PolicyDef>, b: seq<PolicyDef>, principal: Principal, tenant: TenantContext,
                                    delegation: Option<Delegation>, request: AuthorizationRequest,
                                    attributes: Option<ResourceAttributes>, now: int, clock: Option<int>)
    requires DistinctCapabilities(a) && DistinctCapabilities(b) && multiset(a) == multiset(b)
    ensures var da := RequestDecision(CompilePolicy(a, tenant), Some(principal), Some(tenant), delegation, request,
                                      attributes, now, clock);
            var db := RequestDecision(CompilePolicy(b, tenant), Some(principal), Some(tenant), delegation, request,
                                      attributes, now, clock);
            da.(matchedRules := []) == db.(matchedRules := [])
  {
    assert |multiset(a)| == |a| && |multiset(b)| == |b|;
    if a != [] {
      var pa, pb := CompilePolicy(a, tenant).value, CompilePolicy(b, tenant).value;
      SameRuleFound(a, b, request, Facts(principal, attributes, clock), pa, pb);
      SameRulesSameDecision(pa, pb, principal, tenant, delegation, request, attributes, now, clock);
    }
  }

  lemma RearrangedStaysDistinct(a: seq<PolicyDef>, b: seq<PolicyDef>)
    requires DistinctCapabilities(a) && multiset(a) == multiset(b)
    ensures DistinctCapabilities(b)
  {
    assert Distinct(a);
    forall x ensures multiset(b)[x] <= 1 {
      DistinctMultiplicity(a, x);
    }
    SingleMultiplicity(b);
    forall i, j | 0 <= i < j < |b| ensures b[i].capability != b[j].capability {
      assert b[i] in multiset(b) && b[j] in multiset(b);
      assert b[i] in multiset(a) && b[j] in multiset(a);
      var m, n :| 0 <= m < |a| && 0 <= n < |a| && a[m] == b[i] && a[n] == b[j];
      assert m != n;
    }
  }

  /** A valid declaration and its canonical form decide every request alike, but for the rule label. */
  lemma CanonicalDecidesAlike(config: AuthConfig, principal: Principal, tenant: TenantContext,
                              delegation: Option<Delegation>, request: AuthorizationRequest,
                              attributes: Option<ResourceAttributes>, now: int, clock: Option<int>)
    requires Declaration.IsValid(config)
    ensures var da := RequestDecision(CompilePolicy(config.policies, tenant), Some(principal), Some(tenant), delegation,
                                      request, attributes, now, clock);
            var db := RequestDecision(CompilePolicy(Canonical(config).policies, tenant), Some(principal), Some(tenant),
                                      delegation, request, attributes, now, clock);
            da.(matchedRules := []) == db.(matchedRules := [])
  {
    hide RequestDecision, CompilePolicy;
    Orders();
    SortSorts(config.policies, byCapability);
    RearrangedStaysDistinct(config.policies, Canonical(config).policies);
    OrderOfPoliciesIsImmaterial(config.policies, Canonical(config).policies, principal, tenant, delegation, request,
                                attributes, now, clock);
  }
}
