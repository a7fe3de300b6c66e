/** When a session resolves, to whom, and what logging out and expiry do to it over whole runs. */
module Sessions {
  import opened Prelude
  import opened Text
  import opened Contract
  import opened Evaluator
  import opened MeshModel
  import opened MeshRuns

  // ----- One resolution -----------------------------------------------------------------------------

  /** The identity is bound to a stored principal of the tenant that may act. */
  ghost predicate LeadsToUsable(s: Stores, tenantId: Id, identity: External) {
    && identity in s.bindings && s.bindings[identity] in s.principals
    && var p := s.principals[s.bindings[identity]];
       p.tenantId == tenantId && (p.kind == Agent ==> p.agentState == Some(Active))
  }

  /** The tenant's stored policy bears the id it is stored under, or there is none and policies are declared. */
  ghost predicate PolicyFits(config: Config, s: Stores, tenant: TenantContext) {
    if tenant.policyId in s.policies then s.policies[tenant.policyId].id == tenant.policyId else config.policies != []
  }

  ghost predicate SessionServes(config: Config, s: Stores, t: Id, sessionId: Id, now: int) {
    && !IsBlank(t) && t in s.tenants && sessionId in s.sessions
    && var (tenant, session) := (s.tenants[t], s.sessions[sessionId]);
       && session.tenantId == tenant.tenantId && !session.revoked && now < session.expiresAt
       && LeadsToUsable(s, tenant.tenantId, session.identity) && PolicyFits(config, s, tenant)
  }

  /** No rule for the capability is met without a resource. */
  predicate Ungranted(policy: Policy, principal: Principal, capability: Capability, clock: Option<int>) {
    forall r <- policy.rules :: r.capability == capability ==> !Holds(r.condition, Facts(principal, None, clock))
  }

  /** A live delegation to the principal with a capability that no rule grants. */
  predicate AddsAuthority(policy: Policy, principal: Principal, tenant: TenantContext, d: Delegation, now: int,
                          clock: Option<int>)
  {
    LiveFor(d, principal, tenant, now) && exists c <- d.capabilities :: Ungranted(policy, principal, c, clock)
  }

  /** The first delegation of the listing that adds authority, if there is one. */
  ghost predicate FirstToAdd(acting: Option<Delegation>, policy: Policy, principal: Principal, tenant: TenantContext,
                             listing: seq<Delegation>, now: int, clock: Option<int>)
  {
    if acting.None? then forall d <- listing :: !AddsAuthority(policy, principal, tenant, d, now, clock)
    else
      exists i :: 0 <= i < |listing| && listing[i] == acting.value
                  && AddsAuthority(policy, principal, tenant, listing[i], now, clock)
                  && forall j :: 0 <= j < i ==> !AddsAuthority(policy, principal, tenant, listing[j], now, clock)
  }

  /** A session resolves exactly when it is stored for the tenant, not logged out and not expired, its identity leads to a
      principal that may act, and a policy fits; and then to that very principal, acting under the first live delegation
      that adds to what the rules grant. */
  lemma SessionResolvesExactly(config: Config, s: Stores, t: Id, sessionId: Id, listing: seq<Delegation>, env: Env)
    ensures ResolveSession(config, s, t, sessionId, listing, env).Ok? <==> SessionServes(config, s, t, sessionId, env.now)
    ensures SessionServes(config, s, t, sessionId, env.now) ==>
              var (context, tenant) := (ResolveSession(config, s, t, sessionId, listing, env).value, s.tenants[t]);
              && context.principal == s.principals[s.bindings[s.sessions[sessionId].identity]]
              && context == RuntimeContext(context.principal, tenant, Some(sessionId), context.delegation, None)
              && (DistinctIds(listing) ==>
                    FirstToAdd(context.delegation, PolicyOf(config, s, tenant).value, context.principal, tenant, listing,
                               env.now, env.clock))
  {
    hide IsBlank, RuleGrants, AddDelegations, ActingDelegation, FirstToAdd, DistinctIds;
    if SessionServes(config, s, t, sessionId, env.now) {
      var tenant := s.tenants[t];
      var principal := s.principals[s.bindings[s.sessions[sessionId].identity]];
      if DistinctIds(listing) {
        ActsUnderFirst(PolicyOf(config, s, tenant).value, principal, tenant, listing, env.now, env.clock);
      }
    }
  }

  ghost predicate DistinctIds(listing: seq<Delegation>) {
    forall d, e :: d in listing && e in listing && d.id == e.id ==> d == e
  }

  // ----- The delegation acted under -------------------------------------------------------------------

  predicate ByRules(grants: seq<GrantedCapability>) {
    forall g <- grants :: g.delegationId.None?
  }

  lemma {:induction false} RulesGrantAlone(policy: Policy, principal: Principal, tenant: TenantContext, clock: Option<int>, n: nat)
    requires n <= |policy.rules|
    ensures ByRules(RuleGrants(policy, principal, tenant, clock, n))
  {
    if n > 0 {
      RulesGrantAlone(policy, principal, tenant, clock, n - 1);
    }
  }

  lemma UngrantedExactly(policy: Policy, principal: Principal, tenant: TenantContext, clock: Option<int>, c: Capability)
    ensures GrantFor(RuleGrants(policy, principal, tenant, clock, |policy.rules|), c).None? <==>
            Ungranted(policy, principal, c, clock)
  {
    hide Holds, RuleGrants, GrantFor;
    RuleGrantsLookup(policy, principal, tenant, clock, |policy.rules|, c);
    var first := GrantingRule(policy, principal, c, clock);
    if first.Some? {
      assert policy.rules[first.value] in policy.rules;
    } else {
      forall r | r in policy.rules && r.capability == c ensures !Holds(r.condition, Facts(principal, None, clock)) {
        var i :| 0 <= i < |policy.rules| && policy.rules[i] == r;
      }
    }
  }

  /** The grants are those of the rules, or these followed by one of this delegation. */
  predicate Extends(rules: seq<GrantedCapability>, grants: seq<GrantedCapability>, id: Id) {
    rules <= grants && |rules| < |grants| && grants[|rules|].delegationId == Some(id)
  }

  /** One more capability, when the rules are all that is granted so far. */
  lemma FirstAdded(rules: seq<GrantedCapability>, policy: Policy, principal: Principal, tenant: TenantContext, d: Delegation,
                   c: Capability)
    ensures Extends(rules, rules + [DelegatedGrant(policy, principal, tenant, d, c)], d.id)
  {
  }

  lemma StillExtends(rules: seq<GrantedCapability>, grants: seq<GrantedCapability>, g: GrantedCapability, id: Id)
    requires Extends(rules, grants, id)
    ensures Extends(rules, grants + [g], id)
  {
  }

  predicate SomeNew(rules: seq<GrantedCapability>, d: Delegation, n: nat)
    requires n <= |d.capabilities|
  {
    exists k :: 0 <= k < n && GrantFor(rules, d.capabilities[k]).None?
  }

  lemma SomeNewStep(rules: seq<GrantedCapability>, d: Delegation, n: nat)
    requires 0 < n <= |d.capabilities|
    ensures SomeNew(rules, d, n) <==> SomeNew(rules, d, n - 1) || GrantFor(rules, d.capabilities[n - 1]).None?
  {
    hide GrantFor;
    if k :| 0 <= k < n - 1 && GrantFor(rules, d.capabilities[k]).None? {
      assert 0 <= k < n;
    }
  }

  lemma {:induction false} CapabilitiesExtend(rules: seq<GrantedCapability>, policy: Policy, principal: Principal,
                                              tenant: TenantContext, d: Delegation, n: nat)
    requires n <= |d.capabilities|
    ensures var grants := AddCapabilities(rules, policy, principal, tenant, d, n);
            if SomeNew(rules, d, n) then Extends(rules, grants, d.id) else grants == rules
  {
    hide GrantFor, SomeNew, Extends, DelegatedGrant;
    if n == 0 {
      assert !SomeNew(rules, d, 0) by { NothingNew(rules, d); }
    } else {
      var rest, c := AddCapabilities(rules, policy, principal, tenant, d, n - 1), d.capabilities[n - 1];
      CapabilitiesExtend(rules, policy, principal, tenant, d, n - 1);
      SomeNewStep(rules, d, n);
      if SomeNew(rules, d, n - 1) {
        StillExtends(rules, rest, DelegatedGrant(policy, principal, tenant, d, c), d.id);
      } else {
        FirstAdded(rules, policy, principal, tenant, d, c);
      }
    }
  }

  lemma NothingNew(rules: seq<GrantedCapability>, d: Delegation)
    ensures !SomeNew(rules, d, 0)
  {
  }

  lemma {:induction false} CapabilitiesKeepFirst(rules: seq<GrantedCapability>, grants: seq<GrantedCapability>, id: Id,
                                                 policy: Policy, principal: Principal, tenant: TenantContext, d: Delegation, n: nat)
    requires n <= |d.capabilities| && Extends(rules, grants, id)
    ensures Extends(rules, AddCapabilities(grants, policy, principal, tenant, d, n), id)
  {
    hide Extends, DelegatedGrant, GrantFor;
    if n > 0 {
      CapabilitiesKeepFirst(rules, grants, id, policy, principal, tenant, d, n - 1);
      StillExtends(rules, AddCapabilities(grants, policy, principal, tenant, d, n - 1),
                   DelegatedGrant(policy, principal, tenant, d, d.capabilities[n - 1]), id);
    }
  }

  lemma AddsExactly(policy: Policy, principal: Principal, tenant: TenantContext, d: Delegation, now: int, clock: Option<int>)
    ensures var rules := RuleGrants(policy, principal, tenant, clock, |policy.rules|);
            AddsAuthority(policy, principal, tenant, d, now, clock) <==>
            LiveFor(d, principal, tenant, now) && SomeNew(rules, d, |d.capabilities|)
  {
    hide GrantFor, RuleGrants, LiveFor, Ungranted;
    forall c ensures GrantFor(RuleGrants(policy, principal, tenant, clock, |policy.rules|), c).None? <==> Ungranted(policy, principal, c, clock) {
      UngrantedExactly(policy, principal, tenant, clock, c);
    }
    if c :| c in d.capabilities && Ungranted(policy, principal, c, clock) {
      var k :| 0 <= k < |d.capabilities| && d.capabilities[k] == c;
    }
  }

  function FirstAdder(policy: Policy, principal: Principal, tenant: TenantContext, listing: seq<Delegation>, now: int,
                      clock: Option<int>): Option<nat>
  {
    IndexWhere(listing, (d: Delegation) => AddsAuthority(policy, principal, tenant, d, now, clock))
  }

  lemma {:induction false} DelegationsExtend(policy: Policy, principal: Principal, tenant: TenantContext,
                                             listing: seq<Delegation>, now: int, clock: Option<int>, n: nat)
    requires n <= |listing|
    ensures var rules := RuleGrants(policy, principal, tenant, clock, |policy.rules|);
            var grants := AddDelegations(rules, policy, principal, tenant, listing, now, n);
            var first := FirstAdder(policy, principal, tenant, listing, now, clock);
            if first.Some? && first.value < n then Extends(rules, grants, listing[first.value].id) else grants == rules
  {
    hide GrantFor, RuleGrants, LiveFor, AddsAuthority, AddCapabilities, SomeNew, Extends;
    if n > 0 {
      DelegationsExtend(policy, principal, tenant, listing, now, clock, n - 1);
      var rules, d := RuleGrants(policy, principal, tenant, clock, |policy.rules|), listing[n - 1];
      var rest := AddDelegations(rules, policy, principal, tenant, listing, now, n - 1);
      var first := FirstAdder(policy, principal, tenant, listing, now, clock);
      AddsExactly(policy, principal, tenant, d, now, clock);
      if first.Some? && first.value < n - 1 {
        CapabilitiesKeepFirst(rules, rest, listing[first.value].id, policy, principal, tenant, d, |d.capabilities|);
      } else {
        CapabilitiesExtend(rules, policy, principal, tenant, d, |d.capabilities|);
        assert first != Some(n - 1) ==> !AddsAuthority(policy, principal, tenant, d, now, clock);
      }
    }
  }

  lemma FirstDelegated(rules: seq<GrantedCapability>, grants: seq<GrantedCapability>, id: Id, listing: seq<Delegation>, i: nat)
    requires ByRules(rules) && Extends(rules, grants, id) && DistinctIds(listing) && i < |listing| && listing[i].id == id
    ensures ActingDelegation(grants, listing) == Some(listing[i])
  {
    var p := (g: GrantedCapability) => g.delegationId.Some?;
    forall k | 0 <= k < |rules| ensures !p(grants[k]) {
      assert rules[k] in rules && grants[k] == rules[k];
    }
    assert IndexWhere(grants, p) == Some(|rules|);
    var k := IndexWhere(listing, (d: Delegation) => Some(d.id) == grants[|rules|].delegationId);
    assert k.Some? && listing[k.value] in listing && listing[i] in listing;
  }

  lemma NoneDelegated(rules: seq<GrantedCapability>, listing: seq<Delegation>)
    requires ByRules(rules)
    ensures ActingDelegation(rules, listing).None?
  {
    forall i | 0 <= i < |rules| ensures rules[i].delegationId.None? {
      assert rules[i] in rules;
    }
  }

  lemma ActsUnderFirst(policy: Policy, principal: Principal, tenant: TenantContext, listing: seq<Delegation>, now: int,
                       clock: Option<int>)
    requires DistinctIds(listing) && principal.tenantId == tenant.tenantId && policy.id == tenant.policyId
    requires principal.kind == Agent ==> principal.agentState == Some(Active)
    ensures FirstToAdd(ActingDelegation(Envelope(policy, principal, tenant, listing, now, clock).value, listing), policy,
                       principal, tenant, listing, now, clock)
  {
    hide RuleGrants, AddDelegations, AddsAuthority, ActingDelegation, DistinctIds, ByRules;
    var rules := RuleGrants(policy, principal, tenant, clock, |policy.rules|);
    var grants := AddDelegations(rules, policy, principal, tenant, listing, now, |listing|);
    var first := FirstAdder(policy, principal, tenant, listing, now, clock);
    RulesGrantAlone(policy, principal, tenant, clock, |policy.rules|);
    DelegationsExtend(policy, principal, tenant, listing, now, clock, |listing|);
    if first.Some? {
      FirstDelegated(rules, grants, listing[first.value].id, listing, first.value);
    } else {
      NoneDelegated(rules, listing);
    }
  }

  // ----- Over whole runs ------------------------------------------------------------------------------

  /** The session a step opens, and its id. */
  function Opens(s: MeshState, op: Op): Option<(Id, Session)> {
    if op.SignInOp? && SignIn(s.stores, op.tenantId, op.sessionId, op.connector, op.subject, op.expiresAt).Ok? then
      var tenantId := TenantOf(s.stores, op.tenantId).value.tenantId;
      Some((op.sessionId, Session(tenantId, External(tenantId, op.connector, op.subject), op.expiresAt, false)))
    else if op.SignUpOp? && SignUp(s.config, s.stores, op.tenantId, op.connector, op.subject, op.kind, op.claims, op.sessionId,
                                   op.expiresAt).Ok? then
      var tenantId := TenantOf(s.stores, op.tenantId).value.tenantId;
      Some((op.sessionId, Session(tenantId, External(tenantId, op.connector, op.subject), op.expiresAt, false)))
    else None
  }

  predicate OpensId(s: MeshState, op: Op, sessionId: Id) {
    Opens(s, op).Some? && Opens(s, op).value.0 == sessionId
  }

  /** The step logs the session out: it is stored for the tenant. */
  predicate Closes(s: MeshState, op: Op, sessionId: Id) {
    && op.LogoutOp? && op.sessionId == sessionId && !IsBlank(op.tenantId) && op.tenantId in s.stores.tenants
    && sessionId in s.stores.sessions && s.stores.sessions[sessionId].tenantId == s.stores.tenants[op.tenantId].tenantId
  }

  lemma StepSessions(s: MeshState, op: Op, env: Env, sessionId: Id)
    ensures var t := Step(s, op, env).0.stores.sessions;
            if OpensId(s, op, sessionId) then sessionId in t && t[sessionId] == Opens(s, op).value.1
            else if Closes(s, op, sessionId) then
              sessionId in t && t[sessionId] == s.stores.sessions[sessionId].(revoked := true)
            else (sessionId in t <==> sessionId in s.stores.sessions)
                 && (sessionId in t ==> t[sessionId] == s.stores.sessions[sessionId])
    ensures Closes(s, op, sessionId) ==> sessionId in s.stores.sessions
  {
    hide AuthorizeCapability, AuthorizeRequest, AuthorizeRun, ResolveSession, DelegateCheck, CreateRunCheck, Append, Resolve,
         PrincipalOf, IsBlank, PrincipalIdFor, Unusable;
  }

  /** The step was the last to open the session before `n`. */
  ghost predicate OpenedLastAt(b: Behavior, k: nat, n: nat, sessionId: Id)
    requires b.IsRun() && n < |b.states|
  {
    && k < n && OpensId(b.states[k], b.ops[k], sessionId)
    && forall l :: k < l < n ==> !OpensId(b.states[l], b.ops[l], sessionId)
  }

  ghost predicate ClosedBetween(b: Behavior, k: nat, n: nat, sessionId: Id)
    requires b.IsRun() && n < |b.states|
  {
    exists l :: k < l < n && Closes(b.states[l], b.ops[l], sessionId)
  }

  /** A stored session is as it was opened last, but for being marked when it has been logged out since. */
  lemma {:induction false} SessionHistory(b: Behavior, n: nat, sessionId: Id) returns (k: nat)
    requires b.IsRun() && n < |b.states| && sessionId in b.states[n].stores.sessions
    ensures OpenedLastAt(b, k, n, sessionId)
    ensures b.states[n].stores.sessions[sessionId] ==
            Opens(b.states[k], b.ops[k]).value.1.(revoked := ClosedBetween(b, k, n, sessionId))
  {
    hide Step, Opens, Closes;
    var s, op := b.states[n - 1], b.ops[n - 1];
    StepSessions(s, op, b.envs[n - 1], sessionId);
    if OpensId(s, op, sessionId) {
      k := n - 1;
      assert Opens(s, op).value.1 == Opens(s, op).value.1.(revoked := false) by { OpensLive(s, op); }
    } else {
      k := SessionHistory(b, n - 1, sessionId);
      if ClosedBetween(b, k, n - 1, sessionId) {
        var l :| k < l < n - 1 && Closes(b.states[l], b.ops[l], sessionId);
      }
    }
  }

  lemma OpensLive(s: MeshState, op: Op)
    ensures Opens(s, op).Some? ==> !Opens(s, op).value.1.revoked && Opens(s, op).value.1.expiresAt == op.expiresAt
  {
    hide SignIn, SignUp, TenantOf;
  }

  /** In every run a session resolves exactly when it was opened, has not been logged out since it was last opened, is for
      this tenant and within the time it was last opened for, and its identity leads to a usable principal and a policy
      fits now. */
  lemma ResolvedInRunExactly(b: Behavior, n: nat)
    requires b.IsRun() && n < |b.ops| && b.ops[n].ResolveOp?
    ensures b.ReplyAt(n).Resolved?
    ensures b.ReplyAt(n).context.Ok? <==>
            exists k: nat :: OpenedLastAt(b, k, n, b.ops[n].sessionId) && !ClosedBetween(b, k, n, b.ops[n].sessionId)
                        && var (s, op, session) := (b.states[n].stores, b.ops[n], Opens(b.states[k], b.ops[k]).value.1);
                           && !IsBlank(op.tenantId) && op.tenantId in s.tenants
                           && session.tenantId == s.tenants[op.tenantId].tenantId && b.envs[n].now < b.ops[k].expiresAt
                           && LeadsToUsable(s, session.tenantId, session.identity)
                           && PolicyFits(b.states[n].config, s, s.tenants[op.tenantId])
  {
    hide Opens, Closes, LeadsToUsable, PolicyFits, ResolveSession, IsBlank;
    var s, op, sid := b.states[n].stores, b.ops[n], b.ops[n].sessionId;
    SessionResolvesExactly(b.states[n].config, s, op.tenantId, sid, op.listing, b.envs[n]);
    if sid in s.sessions {
      var k := SessionHistory(b, n, sid);
      OpensLive(b.states[k], b.ops[k]);
      forall l: nat | OpenedLastAt(b, l, n, sid) ensures l == k {
        assert OpensId(b.states[l], b.ops[l], sid) && OpensId(b.states[k], b.ops[k], sid);
      }
    } else {
      NeverOpened(b, n, sid);
    }
  }

  lemma {:induction false} NeverOpened(b: Behavior, n: nat, sessionId: Id)
    requires b.IsRun() && n < |b.states| && sessionId !in b.states[n].stores.sessions
    ensures forall k :: 0 <= k < n ==> !OpensId(b.states[k], b.ops[k], sessionId)
  {
    hide Step, Opens, Closes;
    if n > 0 {
      StepSessions(b.states[n - 1], b.ops[n - 1], b.envs[n - 1], sessionId);
      NeverOpened(b, n - 1, sessionId);
    }
  }

  /** After an acknowledged logout the session resolves no more, unless a later sign-in or sign-up has opened its id anew. */
  lemma LoggedOutForGood(b: Behavior, i: nat, j: nat)
    requires b.IsRun() && i < j < |b.ops| && b.ops[i].LogoutOp? && b.ReplyAt(i).Acknowledged? && b.ReplyAt(i).outcome.Ok?
    requires b.ops[j].ResolveOp? && b.ops[j].sessionId == b.ops[i].sessionId
    ensures b.ReplyAt(j).Resolved?
    ensures b.ReplyAt(j).context.Ok? ==> exists k :: i < k < j && OpensId(b.states[k], b.ops[k], b.ops[i].sessionId)
  {
    hide Opens, Closes, LeadsToUsable, PolicyFits, ResolveSession, Step;
    var sid := b.ops[i].sessionId;
    LogoutCloses(b, i);
    ResolvedInRunExactly(b, j);
    if b.ReplyAt(j).context.Ok? {
      var k: nat :| OpenedLastAt(b, k, j, sid) && !ClosedBetween(b, k, j, sid);
      assert k >= i;
      assert k != i by { LogoutOpensNothing(b.states[i], b.ops[i]); }
      assert OpensId(b.states[k], b.ops[k], sid);
    }
  }

  lemma LogoutCloses(b: Behavior, i: nat)
    requires b.IsRun() && i < |b.ops| && b.ops[i].LogoutOp? && b.ReplyAt(i).Acknowledged? && b.ReplyAt(i).outcome.Ok?
    ensures Closes(b.states[i], b.ops[i], b.ops[i].sessionId)
  {
    hide IsBlank;
  }

  lemma LogoutOpensNothing(s: MeshState, op: Op)
    requires op.LogoutOp?
    ensures Opens(s, op).None?
  {
  }

  /** At or after its expiry no session resolves. */
  lemma NoneAfterExpiry(b: Behavior, n: nat, k: nat)
    requires b.IsRun() && n < |b.ops| && b.ops[n].ResolveOp? && OpenedLastAt(b, k, n, b.ops[n].sessionId)
    requires b.ops[k].expiresAt <= b.envs[n].now
    ensures b.ReplyAt(n).Resolved? && b.ReplyAt(n).context.Err?
  {
    hide Opens, Closes, LeadsToUsable, PolicyFits, ResolveSession, Step;
    ResolvedInRunExactly(b, n);
    forall l: nat | OpenedLastAt(b, l, n, b.ops[n].sessionId) ensures l == k {
      assert OpensId(b.states[l], b.ops[l], b.ops[n].sessionId) && OpensId(b.states[k], b.ops[k], b.ops[n].sessionId);
    }
  }
}
