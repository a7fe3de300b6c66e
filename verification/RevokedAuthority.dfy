/** What is left of the authority of a run once its delegation is revoked, and two runs of the mesh that show how a
    withdrawn authority lives on. */
module RevokedAuthority {
  import opened Prelude
  import opened Text
  import opened Contract
  import opened Evaluator
  import opened EvaluatorComparison
  import opened MeshModel
  import opened MeshRuns
  import opened MeshSafety
  import opened ChainExample

  // ----- Requests under a run ---------------------------------------------------------------------

  /** The run may be used by this caller for this request. */
  ghost predicate RunServes(s: Stores, context: RuntimeContext, runId: Id, request: AuthorizationRequest,
                            attributes: Option<ResourceAttributes>, now: int)
  {
    && runId in s.runs
    && var r := s.runs[runId];
       && r.tenantId == context.tenant.tenantId && r.agent == context.principal.id
       && r.status == RunActive && now < r.expiresAt
       && request.capability in r.capabilities && ScopeMatches(r.scope, request, attributes)
  }

  lemma RunServesExactly(s: Stores, context: RuntimeContext, runId: Id, request: AuthorizationRequest,
                         attributes: Option<ResourceAttributes>, now: int)
    ensures RunDenial(s, context, runId, request, attributes, now).None? <==>
            RunServes(s, context, runId, request, attributes, now)
    ensures RunDenial(s, context, runId, request, attributes, now).None? ==> CheckedRun(s, context.tenant, runId, now).Ok?
  {
    hide ScopeMatches;
  }

  /** The first live delegation listed that carries the capability covers the request. */
  ghost predicate FirstLiveCovers(listing: seq<Delegation>, request: AuthorizationRequest,
                                  attributes: Option<ResourceAttributes>, now: int)
  {
    exists i :: 0 <= i < |listing| && Carries(listing[i], request.capability, now)
                && ScopeMatches(listing[i].scope, request, attributes)
                && forall j :: 0 <= j < i ==> !Carries(listing[j], request.capability, now)
  }

  lemma PickedCovers(listing: seq<Delegation>, principal: Principal, tenant: TenantContext, request: AuthorizationRequest,
                     attributes: Option<ResourceAttributes>, now: int)
    requires ListingFor(listing, principal.id, tenant)
    ensures var picked := PickDelegation(listing, request.capability, now);
            (picked.Some? && Backs(picked.value, principal, tenant, request, attributes, now)) <==>
            FirstLiveCovers(listing, request, attributes, now)
  {
    hide ScopeMatches, Delegation.IsValidAt;
    var first := IndexWhere(listing, (d: Delegation) => Carries(d, request.capability, now));
    if first.Some? {
      assert listing[first.value] in listing;
    }
  }

  /** What an Allow under a run takes besides the run itself. */
  ghost predicate OtherwiseAllowed(s: MeshState, context: RuntimeContext, request: AuthorizationRequest,
                                   attributes: Option<ResourceAttributes>, listing: seq<Delegation>, env: Env)
  {
    var policy, f := PolicyOf(s.config, s.stores, context.tenant), Facts(context.principal, attributes, env.clock);
    && policy.Some? && EarlyDenial(policy.value, context.principal, context.tenant, request, attributes).None?
    && (|| FirstIs(policy.value, request, f, AllowEffect)
        || ((forall r <- policy.value.rules :: !Applies(r, request, f))
            && context.principal.kind == Agent && FirstLiveCovers(listing, request, attributes, env.now)))
  }

  /** In every run of the mesh a request under an agent run is allowed exactly when the run serves it, the log
      accepts the event, and a rule, or some live delegation of the agent, allows it by itself. The delegation the
      run was created under is not asked again. */
  lemma AllowedUnderRunExactly(b: Behavior, n: nat)
    requires b.IsRun() && n < |b.ops| && b.ops[n].AuthorizeRunOp?
    ensures var (op, env) := (b.ops[n], b.envs[n]);
            b.ReplyAt(n).Decided? && (b.ReplyAt(n).decision.Allow? <==>
              && env.auditAccepts
              && RunServes(b.states[n].stores, op.context, op.runId, op.request, op.attributes, env.now)
              && OtherwiseAllowed(b.states[n], op.context, op.request, op.attributes, op.listing, env))
  {
    hide RunServes, OtherwiseAllowed, RunDenial, AuthorizeRequest, PolicyOf, DenyFor;
    var s, op, env := b.states[n], b.ops[n], b.envs[n];
    RunServesExactly(s.stores, op.context, op.runId, op.request, op.attributes, env.now);
    RunDenialDenies(s, op, env);
    if RunDenial(s.stores, op.context, op.runId, op.request, op.attributes, env.now).None? {
      var run := CheckedRun(s.stores, op.context.tenant, op.runId, env.now).value;
      ListingIsFor(s.stores, op.listing, op.context);
      RequestAllowedExactly(s, op.context.(run := Some(run)), op.request, op.attributes, op.listing, op.revision, env);
      assert OtherwiseAllowed(s, op.context.(run := Some(run)), op.request, op.attributes, op.listing, env) ==
             OtherwiseAllowed(s, op.context, op.request, op.attributes, op.listing, env) by { SameCaller(s, op, env, run); }
    }
  }

  lemma SameCaller(s: MeshState, op: Op, env: Env, run: AgentRun)
    requires op.AuthorizeRunOp?
    ensures OtherwiseAllowed(s, op.context.(run := Some(run)), op.request, op.attributes, op.listing, env) ==
            OtherwiseAllowed(s, op.context, op.request, op.attributes, op.listing, env)
  {
    hide PolicyOf, EarlyDenial, FirstIs, FirstLiveCovers, Applies;
  }

  lemma ListingIsFor(s: Stores, listing: seq<Delegation>, context: RuntimeContext)
    requires Lists(listing, s, context.tenant.tenantId, context.principal.id)
    ensures ListingFor(listing, context.principal.id, context.tenant)
  {
  }

  lemma RequestAllowedExactly(s: MeshState, context: RuntimeContext, request: AuthorizationRequest,
                              attributes: Option<ResourceAttributes>, listing: seq<Delegation>, revision: nat, env: Env)
    requires ListingFor(listing, context.principal.id, context.tenant)
    ensures AuthorizeRequest(s, context, request, attributes, listing, revision, env).1.Allow? <==>
            env.auditAccepts && OtherwiseAllowed(s, context, request, attributes, listing, env)
  {
    hide PolicyOf, RequestDecision, PickDelegation, EarlyDenial, Applies, Backs, FirstLiveCovers, Append, Remember;
    var policy := PolicyOf(s.config, s.stores, context.tenant);
    if policy.Some? {
      var picked := PickDelegation(listing, request.capability, env.now);
      AllowedByFirst(policy.value, context.principal, context.tenant, picked, request, attributes, env.now, env.clock);
      PickedCovers(listing, context.principal, context.tenant, request, attributes, env.now);
    }
  }

  /** Once the delegation of a run is revoked, a request under the run is still allowed exactly when the run serves it
      and a rule, or another delegation of the agent that is live, allows it. */
  lemma AllowedAfterRevocationExactly(b: Behavior, n: nat)
    requires b.IsRun() && n < |b.ops| && b.ops[n].AuthorizeRunOp? && b.ops[n].runId in b.states[n].stores.runs
    requires var d := b.states[n].stores.runs[b.ops[n].runId].delegationId;
             d in b.states[n].stores.delegations && b.states[n].stores.delegations[d].revokedAt.Some?
    ensures var (op, env, own) := (b.ops[n], b.envs[n], b.states[n].stores.runs[b.ops[n].runId].delegationId);
            b.ReplyAt(n).Decided? && (b.ReplyAt(n).decision.Allow? <==>
              && env.auditAccepts
              && RunServes(b.states[n].stores, op.context, op.runId, op.request, op.attributes, env.now)
              && OtherwiseAllowed(b.states[n], op.context, op.request, op.attributes, Without(op.listing, own), env))
  {
    hide RunServes, Step;
    var s, op, env := b.states[n].stores, b.ops[n], b.envs[n];
    AllowedUnderRunExactly(b, n);
    RevokedIsPassedOver(s, op.listing, op.context, s.runs[op.runId].delegationId, op.request, op.attributes, env.now);
    AllowedWithout(b.states[n], op, s.runs[op.runId].delegationId, env);
  }

  lemma AllowedWithout(s: MeshState, op: Op, id: Id, env: Env)
    requires op.AuthorizeRunOp?
    requires FirstLiveCovers(op.listing, op.request, op.attributes, env.now) <==>
             FirstLiveCovers(Without(op.listing, id), op.request, op.attributes, env.now)
    ensures OtherwiseAllowed(s, op.context, op.request, op.attributes, op.listing, env) <==>
            OtherwiseAllowed(s, op.context, op.request, op.attributes, Without(op.listing, id), env)
  {
    hide PolicyOf, EarlyDenial, FirstIs, FirstLiveCovers, Applies, Without;
  }

  /** The listing without one delegation. */
  function Without(listing: seq<Delegation>, id: Id): seq<Delegation> {
    if listing == [] then []
    else Without(listing[..|listing| - 1], id) + if listing[|listing| - 1].id == id then [] else [listing[|listing| - 1]]
  }

  lemma RevokedIsPassedOver(s: Stores, listing: seq<Delegation>, context: RuntimeContext, id: Id,
                            request: AuthorizationRequest, attributes: Option<ResourceAttributes>, now: int)
    requires Lists(listing, s, context.tenant.tenantId, context.principal.id)
    requires id in s.delegations && s.delegations[id].revokedAt.Some?
    ensures FirstLiveCovers(listing, request, attributes, now) <==>
            FirstLiveCovers(Without(listing, id), request, attributes, now)
  {
    hide FirstLiveCovers;
    forall d | d in listing && d.id == id ensures !Carries(d, request.capability, now) {
      assert s.delegations[d.id] == d;
    }
    DeadIsPassedOver(listing, id, request, attributes, now);
  }

  lemma {:induction false} DeadIsPassedOver(listing: seq<Delegation>, id: Id, request: AuthorizationRequest,
                                            attributes: Option<ResourceAttributes>, now: int)
    requires forall d <- listing :: d.id == id ==> !Carries(d, request.capability, now)
    ensures FirstLiveCovers(listing, request, attributes, now) <==>
            FirstLiveCovers(Without(listing, id), request, attributes, now)
    ensures (exists d <- listing :: Carries(d, request.capability, now)) <==>
            (exists d <- Without(listing, id) :: Carries(d, request.capability, now))
  {
    hide Carries, ScopeMatches, FirstLiveCovers;
    if listing != [] {
      var init, last := listing[..|listing| - 1], listing[|listing| - 1];
      assert listing == init + [last];
      DeadIsPassedOver(init, id, request, attributes, now);
      OneMore(init, last, request, attributes, now);
      OneMore(Without(init, id), last, request, attributes, now);
      if last.id == id {
        assert Without(listing, id) == Without(init, id);
      }
    }
  }

  lemma OneMore(listing: seq<Delegation>, last: Delegation, request: AuthorizationRequest,
                attributes: Option<ResourceAttributes>, now: int)
    ensures FirstLiveCovers(listing + [last], request, attributes, now) <==>
            FirstLiveCovers(listing, request, attributes, now)
            || ((forall d <- listing :: !Carries(d, request.capability, now))
                && Carries(last, request.capability, now) && ScopeMatches(last.scope, request, attributes))
  {
    hide Carries, ScopeMatches;
    var longer := listing + [last];
    assert longer[|listing|] == last && forall i :: 0 <= i < |listing| ==> longer[i] == listing[i];
    if FirstLiveCovers(longer, request, attributes, now) {
      var i :| 0 <= i < |longer| && Carries(longer[i], request.capability, now)
               && ScopeMatches(longer[i].scope, request, attributes)
               && forall j :: 0 <= j < i ==> !Carries(longer[j], request.capability, now);
      if i == |listing| {
        forall d | d in listing ensures !Carries(d, request.capability, now) {
          var j :| 0 <= j < |listing| && listing[j] == d;
          assert !Carries(longer[j], request.capability, now);
        }
      } else {
        assert Carries(listing[i], request.capability, now);
        assert forall j :: 0 <= j < i ==> longer[j] == listing[j];
      }
    }
    if FirstLiveCovers(listing, request, attributes, now) {
      var i :| 0 <= i < |listing| && Carries(listing[i], request.capability, now)
               && ScopeMatches(listing[i].scope, request, attributes)
               && forall j :: 0 <= j < i ==> !Carries(listing[j], request.capability, now);
      assert Carries(longer[i], request.capability, now);
      assert forall j :: 0 <= j < i ==> longer[j] == listing[j];
    }
    if (forall d <- listing :: !Carries(d, request.capability, now)) && Carries(last, request.capability, now)
       && ScopeMatches(last.scope, request, attributes) {
      assert Carries(longer[|listing|], request.capability, now);
      assert forall j :: 0 <= j < |listing| ==> longer[j] in listing;
    }
  }

  // ----- A revoked delegation whose run is still served ---------------------------------------------

  const OFF := D1.(revokedAt := Some(0))
  const RUN := AgentRun("r", "t", "x", "h", "d1", ["d1"], "k", None, 0, 10, RunActive, 0, ["a"], ANYTHING, None)
  const CALLER := RuntimeContext(Person("x", Agent), TENANT, None, None, None)
  const ASKED := AuthorizationRequest("x", "t", "a", "read", None)

  function StoresAt(delegations: map<Id, Delegation>, runs: map<Id, AgentRun>): Stores {
    StoresWith(delegations).(runs := runs)
  }

  lemma DelegationIsMade(j: Journal)
    ensures Admissible(StoresWith(map[]), DelegateOp("t", Request(D1), []))
    ensures var t := Step(MeshState(CONFIG, StoresWith(map[]), j, 0), DelegateOp("t", Request(D1), []), NOW).0;
            t == MeshState(CONFIG, StoresAt(M1, map[]), t.journal, 0)
  {
    hide Step, DelegateCheck;
    Listings();
    Accepts(map[], Request(D1), [], D1);
    AcceptedIsStored(map[], j, Request(D1), [], D1);
    assert M1 == map[]["d1" := D1] && StoresWith(M1) == StoresAt(M1, map[]);
  }

  const WANTED := RunRequest(Some("r"), "k", "d1", None, ["a"], ANYTHING, 10)

  lemma RunIsGranted()
    ensures CreateRunCheck(StoresAt(M1, map[]), 0, "t", "x", WANTED, 0, NOW) == Ok(RUN)
  {
    assert 't' in "t" && !IsWhitespace('t');
    assert D1.chain + ["d1"] == ["d1"];
  }

  lemma RunIsMade(j: Journal)
    ensures var t := Step(MeshState(CONFIG, StoresAt(M1, map[]), j, 0), CreateRunOp("t", "x", WANTED, 0), NOW).0;
            t == MeshState(CONFIG, StoresAt(M1, map["r" := RUN]), t.journal, 0)
  {
    hide Append, CreateRunCheck;
    RunIsGranted();
    assert map[]["r" := RUN] == map["r" := RUN];
  }

  lemma DelegationIsRevoked(j: Journal)
    ensures var t := Step(MeshState(CONFIG, StoresAt(M1, map["r" := RUN]), j, 0), RevokeOp("t", "d1"), NOW).0;
            t == MeshState(CONFIG, StoresAt(map["d1" := OFF], map["r" := RUN]), t.journal, 0)
  {
    hide Append;
    assert 't' in "t" && !IsWhitespace('t');
    assert M1["d1" := OFF] == map["d1" := OFF];
  }

  lemma RuleStillAllows(j: Journal)
    ensures RunServes(StoresAt(map["d1" := OFF], map["r" := RUN]), CALLER, "r", ASKED, None, 0)
    ensures OtherwiseAllowed(MeshState(CONFIG, StoresAt(map["d1" := OFF], map["r" := RUN]), j, 0), CALLER, ASKED, None, [], NOW)
    ensures Lists([OFF], StoresAt(map["d1" := OFF], map["r" := RUN]), "t", "x")
  {
    assert DecidesFirst(POLICY, ASKED, Facts(CALLER.principal, None, None), 0, AllowEffect);
  }

  /** A human delegates to an agent, a run is created under the delegation, the delegation is revoked, and a request
      under the run is still allowed, by a rule. */
  lemma RunOutlivesItsDelegation() returns (b: Behavior)
    ensures b.IsRun() && |b.ops| == 4 && b.ops[2] == RevokeOp("t", "d1") && b.ops[3].AuthorizeRunOp? && b.ops[3].runId == "r"
    ensures b.states[3].stores.runs == map["r" := RUN] && b.states[3].stores.delegations == map["d1" := OFF]
    ensures b.ReplyAt(3).Decided? && b.ReplyAt(3).decision.Allow?
  {
    hide Step, DelegateCheck, Lists, RunServes, OtherwiseAllowed;
    var ops := [DelegateOp("t", Request(D1), []), CreateRunOp("t", "x", WANTED, 0), RevokeOp("t", "d1"),
                AuthorizeRunOp(CALLER, "r", ASKED, None, [OFF], 0)];
    var s0 := MeshState(CONFIG, StoresWith(map[]), Journal([], 0, []), 0);
    DelegationIsMade(s0.journal);
    var s1 := Step(s0, ops[0], NOW).0;
    RunIsMade(s1.journal);
    var s2 := Step(s1, ops[1], NOW).0;
    DelegationIsRevoked(s2.journal);
    var s3 := Step(s2, ops[2], NOW).0;
    RuleStillAllows(s3.journal);
    b := Behavior([s0, s1, s2, s3, Step(s3, ops[3], NOW).0], ops, [NOW, NOW, NOW, NOW]);
    AllowedAfterRevocationExactly(b, 3);
    assert Without([OFF], "d1") == [];
  }

  // ----- A revoked agent that comes back by signing up ------------------------------------------------

  const OUTSIDE := External("t", "local", "eve")
  const EVE := PrincipalIdFor(OUTSIDE)

  function WithEve(p: Principal): Stores {
    StoresWith(map[]).(principals := PEOPLE[EVE := p])
  }

  function Named(kind: PrincipalKind): Principal {
    Principal(EVE, kind, "t", map[], if kind == Agent then Some(Active) else None)
  }

  lemma EveIsCreated(j: Journal)
    ensures Step(MeshState(CONFIG, StoresWith(map[]), j, 0), CreateAgentOp("t", EVE), NOW).0 ==
            MeshState(CONFIG, WithEve(Named(Agent)), j, 0)
  {
    hide PrincipalIdFor;
    assert 't' in "t" && !IsWhitespace('t');
  }

  lemma EveIsRevoked(j: Journal)
    ensures var t := Step(MeshState(CONFIG, WithEve(Named(Agent)), j, 0), SetAgentStateOp("t", EVE, Revoked), NOW).0;
            t == MeshState(CONFIG, WithEve(Named(Agent).(agentState := Some(Revoked))), t.journal, 0)
  {
    hide PrincipalIdFor, Append;
    assert 't' in "t" && !IsWhitespace('t');
  }

  lemma EveSignsUp(j: Journal, kind: PrincipalKind)
    ensures var s := MeshState(CONFIG, WithEve(Named(Agent).(agentState := Some(Revoked))), j, 0);
            Registers(s, SignUpOp("t", "local", "eve", kind, map[], "s", 10)) == Some(Named(kind))
  {
    assert 't' in "t" && !IsWhitespace('t') && 'e' in "eve" && !IsWhitespace('e');
  }

  /** An agent is created under the id an external identity leads to and revoked; signing up with that identity makes
      it an active agent again, or a human, as the caller chooses. */
  lemma RevokedAgentSignsUp(kind: PrincipalKind) returns (b: Behavior)
    ensures b.IsRun() && |b.ops| == 3 && b.ops[1] == SetAgentStateOp("t", EVE, Revoked) && b.ops[2].SignUpOp?
    ensures Stopped(b.states[2].stores, EVE) && !Stopped(b.states[3].stores, EVE)
    ensures EVE in b.states[3].stores.principals && b.states[3].stores.principals[EVE].kind == kind
  {
    hide Step, PrincipalIdFor, Registers;
    var ops := [CreateAgentOp("t", EVE), SetAgentStateOp("t", EVE, Revoked),
                SignUpOp("t", "local", "eve", kind, map[], "s", 10)];
    var s0 := MeshState(CONFIG, StoresWith(map[]), Journal([], 0, []), 0);
    EveIsCreated(s0.journal);
    var s1 := Step(s0, ops[0], NOW).0;
    EveIsRevoked(s1.journal);
    var s2 := Step(s1, ops[1], NOW).0;
    EveSignsUp(s2.journal, kind);
    b := Behavior([s0, s1, s2, Step(s2, ops[2], NOW).0], ops, [NOW, NOW, NOW]);
    SigningUpRevives(b, 2);
  }
}
