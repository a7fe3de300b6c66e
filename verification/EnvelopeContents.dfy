/** The whole envelope of a principal: which grants it holds, how often, and in which order. */
module EnvelopeContents {
  import opened Prelude
  import opened Contract
  import opened Evaluator

  // ----- Lists --------------------------------------------------------------------------------------

  /** The numbers below `n` to keep, in ascending order. */
  ghost function Chosen(n: nat, keep: int -> bool): seq<nat> {
    if n == 0 then [] else Chosen(n - 1, keep) + if keep(n - 1) then [n - 1] else []
  }

  lemma {:induction false} ChosenAre(n: nat, keep: int -> bool)
    ensures forall i :: i in Chosen(n, keep) <==> 0 <= i < n && keep(i)
    ensures forall i, j :: 0 <= i < j < |Chosen(n, keep)| ==> Chosen(n, keep)[i] < Chosen(n, keep)[j]
  {
    if n > 0 {
      ChosenAre(n - 1, keep);
      var init := Chosen(n - 1, keep);
      assert forall i :: 0 <= i < |init| ==> init[i] in init;
    }
  }

  /** What live delegations offer, one after another, capability by capability. */
  ghost function Offers(delegations: seq<Delegation>, principalId: Id, tenantId: Id, now: int): seq<(Delegation, Capability)> {
    if delegations == [] then []
    else
      var init, d := delegations[..|delegations| - 1], delegations[|delegations| - 1];
      Offers(init, principalId, tenantId, now) +
      if && d.tenantId == tenantId && d.delegate == principalId && d.revokedAt.None? && d.issuedAt <= now
         && (d.expiresAt.Some? ==> now < d.expiresAt.value)
      then seq(|d.capabilities|, k requires 0 <= k < |d.capabilities| => (d, d.capabilities[k])) else []
  }

  // ----- Grants -------------------------------------------------------------------------------------

  /** The grant of a rule. */
  function ByRule(policy: Policy, p: Principal, rule: Rule): GrantedCapability {
    GrantedCapability(rule.capability, policy.id, p.tenantId, p.id, p.kind, ByClaim, ClaimBasis(rule.condition), None, [], None)
  }

  /** The grant of an offer. */
  function ByOffer(policy: Policy, p: Principal, offer: (Delegation, Capability)): GrantedCapability {
    GrantedCapability(offer.1, policy.id, p.tenantId, p.id, p.kind, ByDelegation, ["delegation:" + offer.0.delegator],
                      Some(offer.0.id), offer.0.chain + [offer.0.id], Some(offer.0.delegator))
  }

  ghost predicate Met(policy: Policy, p: Principal, clock: Option<int>, i: int) {
    0 <= i < |policy.rules| && Holds(policy.rules[i].condition, Facts(p, None, clock))
  }

  ghost predicate MetFor(policy: Policy, p: Principal, clock: Option<int>, c: Capability) {
    exists i :: Met(policy, p, clock, i) && policy.rules[i].capability == c
  }

  /** Nothing grants the capability of the offer before it does. */
  ghost predicate IsNew(policy: Policy, p: Principal, clock: Option<int>, offers: seq<(Delegation, Capability)>, i: int) {
    0 <= i < |offers| && !MetFor(policy, p, clock, offers[i].1) && forall j :: 0 <= j < i ==> offers[j].1 != offers[i].1
  }

  ghost function Test(policy: Policy, p: Principal, clock: Option<int>): int -> bool {
    i => Met(policy, p, clock, i)
  }

  ghost function NewTest(policy: Policy, p: Principal, clock: Option<int>, offers: seq<(Delegation, Capability)>): int -> bool {
    i => IsNew(policy, p, clock, offers, i)
  }

  /** One grant for each rule met, in order. */
  ghost function RulePart(policy: Policy, p: Principal, clock: Option<int>, n: nat): seq<GrantedCapability>
    requires n <= |policy.rules|
  {
    var at := Chosen(n, Test(policy, p, clock));
    ChosenAre(n, Test(policy, p, clock));
    seq(|at|, k requires 0 <= k < |at| => assert at[k] in at; ByRule(policy, p, policy.rules[at[k]]))
  }

  /** One grant for each offer that is new, in order. */
  ghost function OfferPart(policy: Policy, p: Principal, clock: Option<int>, offers: seq<(Delegation, Capability)>, n: nat)
    : seq<GrantedCapability>
    requires n <= |offers|
  {
    var at := Chosen(n, NewTest(policy, p, clock, offers));
    ChosenAre(n, NewTest(policy, p, clock, offers));
    seq(|at|, k requires 0 <= k < |at| => assert at[k] in at; ByOffer(policy, p, offers[at[k]]))
  }

  lemma RuleStep(policy: Policy, p: Principal, clock: Option<int>, n: nat)
    requires n < |policy.rules|
    ensures RulePart(policy, p, clock, n + 1) ==
            RulePart(policy, p, clock, n) + if Met(policy, p, clock, n) then [ByRule(policy, p, policy.rules[n])] else []
    ensures RulePart(policy, p, clock, 0) == []
  {
    hide Met, ByRule;
    assert Test(policy, p, clock)(n) == Met(policy, p, clock, n);
  }

  lemma OfferStep(policy: Policy, p: Principal, clock: Option<int>, offers: seq<(Delegation, Capability)>, n: nat)
    requires n < |offers|
    ensures OfferPart(policy, p, clock, offers, n + 1) ==
            OfferPart(policy, p, clock, offers, n) + if IsNew(policy, p, clock, offers, n) then [ByOffer(policy, p, offers[n])] else []
  {
    hide IsNew, ByOffer;
    assert NewTest(policy, p, clock, offers)(n) == IsNew(policy, p, clock, offers, n);
  }

  lemma NoRules(policy: Policy, p: Principal, clock: Option<int>)
    ensures RulePart(policy, p, clock, 0) == []
  {
  }

  lemma NoOffers(policy: Policy, p: Principal, clock: Option<int>, offers: seq<(Delegation, Capability)>)
    ensures OfferPart(policy, p, clock, offers, 0) == []
  {
  }

  lemma {:induction false} RulesAre(policy: Policy, p: Principal, tenant: TenantContext, clock: Option<int>, n: nat)
    requires n <= |policy.rules| && p.tenantId == tenant.tenantId
    ensures RuleGrants(policy, p, tenant, clock, n) == RulePart(policy, p, clock, n)
  {
    hide Holds, ClaimBasis, RulePart;
    if n > 0 {
      RulesAre(policy, p, tenant, clock, n - 1);
      RuleStep(policy, p, clock, n - 1);
      var init := RulePart(policy, p, clock, n - 1);
      assert init + [] == init;
    } else if policy.rules != [] {
      RuleStep(policy, p, clock, 0);
    } else {
      NoRules(policy, p, clock);
    }
  }

  lemma {:induction false} RulesCover(policy: Policy, p: Principal, clock: Option<int>, n: nat, c: Capability)
    requires n <= |policy.rules|
    ensures (exists g <- RulePart(policy, p, clock, n) :: g.capability == c) <==>
            exists i :: 0 <= i < n && Met(policy, p, clock, i) && policy.rules[i].capability == c
  {
    hide Met, RulePart;
    if n == 0 {
      NoRules(policy, p, clock);
    } else {
      RulesCover(policy, p, clock, n - 1, c);
      RuleStep(policy, p, clock, n - 1);
      var init, all := RulePart(policy, p, clock, n - 1), RulePart(policy, p, clock, n);
      assert forall g :: g in all <==> g in init || (Met(policy, p, clock, n - 1) && g == ByRule(policy, p, policy.rules[n - 1]));
    }
  }

  lemma {:induction false} OffersCover(policy: Policy, p: Principal, clock: Option<int>, offers: seq<(Delegation, Capability)>, n: nat,
                                       c: Capability)
    requires n <= |offers| && !MetFor(policy, p, clock, c)
    ensures (exists g <- OfferPart(policy, p, clock, offers, n) :: g.capability == c) <==> exists j :: 0 <= j < n && offers[j].1 == c
  {
    hide MetFor, OfferPart;
    if n == 0 {
      NoOffers(policy, p, clock, offers);
    } else {
      OffersCover(policy, p, clock, offers, n - 1, c);
      OfferStep(policy, p, clock, offers, n - 1);
      var init, all := OfferPart(policy, p, clock, offers, n - 1), OfferPart(policy, p, clock, offers, n);
      assert forall g :: g in all <==> g in init || (IsNew(policy, p, clock, offers, n - 1) && g == ByOffer(policy, p, offers[n - 1]));
    }
  }

  /** What is granted once `n` offers were looked at. */
  ghost function Sofar(policy: Policy, p: Principal, clock: Option<int>, offers: seq<(Delegation, Capability)>, n: nat)
    : seq<GrantedCapability>
    requires n <= |offers|
  {
    RulePart(policy, p, clock, |policy.rules|) + OfferPart(policy, p, clock, offers, n)
  }

  lemma NewExactly(policy: Policy, p: Principal, clock: Option<int>, offers: seq<(Delegation, Capability)>, n: nat)
    requires n < |offers|
    ensures GrantFor(Sofar(policy, p, clock, offers, n), offers[n].1).None? <==> IsNew(policy, p, clock, offers, n)
  {
    hide RulePart, OfferPart, Holds;
    var c, rules, more := offers[n].1, RulePart(policy, p, clock, |policy.rules|), OfferPart(policy, p, clock, offers, n);
    RulesCover(policy, p, clock, |policy.rules|, c);
    assert MetFor(policy, p, clock, c) ==> exists g <- rules :: g.capability == c;
    if !MetFor(policy, p, clock, c) {
      OffersCover(policy, p, clock, offers, n, c);
    }
    assert forall g :: g in rules + more <==> g in rules || g in more;
  }

  lemma {:induction false} CapabilitiesAre(policy: Policy, p: Principal, tenant: TenantContext, clock: Option<int>,
                                           offers: seq<(Delegation, Capability)>, base: nat, d: Delegation, n: nat)
    requires p.tenantId == tenant.tenantId && n <= |d.capabilities| && base + |d.capabilities| <= |offers|
    requires forall k :: 0 <= k < |d.capabilities| ==> offers[base + k] == (d, d.capabilities[k])
    ensures AddCapabilities(Sofar(policy, p, clock, offers, base), policy, p, tenant, d, n) == Sofar(policy, p, clock, offers, base + n)
  {
    hide RulePart, OfferPart, GrantFor, IsNew;
    if n > 0 {
      CapabilitiesAre(policy, p, tenant, clock, offers, base, d, n - 1);
      var m := base + n - 1;
      assert offers[base + (n - 1)] == (d, d.capabilities[n - 1]);
      NewExactly(policy, p, clock, offers, m);
      OfferStep(policy, p, clock, offers, m);
      var rules, init := RulePart(policy, p, clock, |policy.rules|), OfferPart(policy, p, clock, offers, m);
      assert rules + (init + [ByOffer(policy, p, offers[m])]) == rules + init + [ByOffer(policy, p, offers[m])] && init + [] == init;
    }
  }

  lemma {:induction false} OffersGrow(policy: Policy, p: Principal, clock: Option<int>, offers: seq<(Delegation, Capability)>,
                                      more: seq<(Delegation, Capability)>, n: nat)
    requires n <= |offers|
    ensures OfferPart(policy, p, clock, offers + more, n) == OfferPart(policy, p, clock, offers, n)
  {
    hide OfferPart, MetFor;
    if n == 0 {
      NoOffers(policy, p, clock, offers);
      NoOffers(policy, p, clock, offers + more);
    } else {
      OffersGrow(policy, p, clock, offers, more, n - 1);
      OfferStep(policy, p, clock, offers, n - 1);
      OfferStep(policy, p, clock, offers + more, n - 1);
      assert forall j :: 0 <= j < |offers| ==> (offers + more)[j] == offers[j];
    }
  }

  lemma {:induction false} DelegationsAre(policy: Policy, p: Principal, tenant: TenantContext, clock: Option<int>,
                                          delegations: seq<Delegation>, now: int, n: nat)
    requires p.tenantId == tenant.tenantId && n <= |delegations|
    ensures var offers := Offers(delegations[..n], p.id, tenant.tenantId, now);
            AddDelegations(RulePart(policy, p, clock, |policy.rules|), policy, p, tenant, delegations, now, n) ==
            Sofar(policy, p, clock, offers, |offers|)
  {
    hide RulePart, OfferPart, AddCapabilities, Offers, LiveFor;
    var rules := RulePart(policy, p, clock, |policy.rules|);
    if n == 0 {
      NothingOffered(p.id, tenant.tenantId, now);
      assert delegations[..0] == [];
      NoOffers(policy, p, clock, []);
      assert rules + [] == rules;
    } else {
      DelegationsAre(policy, p, tenant, clock, delegations, now, n - 1);
      var d, before := delegations[n - 1], Offers(delegations[..n - 1], p.id, tenant.tenantId, now);
      assert delegations[..n][..n - 1] == delegations[..n - 1];
      OneMoreOffers(delegations[..n], p, tenant, now);
      if LiveFor(d, p, tenant, now) {
        var more := seq(|d.capabilities|, k requires 0 <= k < |d.capabilities| => (d, d.capabilities[k]));
        OffersGrow(policy, p, clock, before, more, |before|);
        CapabilitiesAre(policy, p, tenant, clock, before + more, |before|, d, |d.capabilities|);
      }
    }
  }

  lemma NothingOffered(principalId: Id, tenantId: Id, now: int)
    ensures Offers([], principalId, tenantId, now) == []
  {
  }

  lemma OneMoreOffers(delegations: seq<Delegation>, p: Principal, tenant: TenantContext, now: int)
    requires delegations != []
    ensures var (init, d) := (delegations[..|delegations| - 1], delegations[|delegations| - 1]);
            Offers(delegations, p.id, tenant.tenantId, now) ==
            Offers(init, p.id, tenant.tenantId, now) +
            if LiveFor(d, p, tenant, now) then seq(|d.capabilities|, k requires 0 <= k < |d.capabilities| => (d, d.capabilities[k])) else []
    ensures var (init, d) := (delegations[..|delegations| - 1], delegations[|delegations| - 1]);
            !LiveFor(d, p, tenant, now) ==> Offers(delegations, p.id, tenant.tenantId, now) == Offers(init, p.id, tenant.tenantId, now)
  {
    var init := Offers(delegations[..|delegations| - 1], p.id, tenant.tenantId, now);
    assert init + [] == init;
  }

  /** The envelope of a principal of the tenant under its policy is empty for an agent that may not act, and else one grant for
      each rule that is met without a resource, in order and with repetitions, and then one for each capability that live
      delegations offer and nothing before grants, in order. */
  lemma EnvelopeExactly(policy: Policy, p: Principal, tenant: TenantContext, delegations: seq<Delegation>, now: int, clock: Option<int>)
    ensures var (envelope, offers) := (Envelope(policy, p, tenant, delegations, now, clock), Offers(delegations, p.id, tenant.tenantId, now));
            && (envelope == Err(PrincipalTenantMismatch) <==> p.tenantId != tenant.tenantId)
            && (envelope == Err(PolicyTenantMismatch) <==> p.tenantId == tenant.tenantId && policy.id != tenant.policyId)
            && (p.tenantId == tenant.tenantId && policy.id == tenant.policyId ==>
                  envelope == Ok(if p.kind == Agent && p.agentState != Some(Active) then []
                                 else RulePart(policy, p, clock, |policy.rules|) + OfferPart(policy, p, clock, offers, |offers|)))
  {
    hide RulePart, OfferPart, Offers, RuleGrants, AddDelegations;
    if p.tenantId == tenant.tenantId {
      RulesAre(policy, p, tenant, clock, |policy.rules|);
      DelegationsAre(policy, p, tenant, clock, delegations, now, |delegations|);
      assert delegations[..|delegations|] == delegations;
    }
  }
}
