/** Safety of every run of the mesh: where delegated authority comes from, what a run may never exceed, and
    what stays stopped. */
module MeshSafety {
  import opened Prelude
  import opened Contract
  import opened Evaluator
  import opened MeshModel
  import opened MeshRuns

  // ----- What a successful delegation has checked -------------------------------------------------

  /** The delegation a re-delegating agent is taken to draw a capability from. */
  function Source(listing: seq<Delegation>, capability: Capability, now: int): Option<nat> {
    IndexWhere(listing, (d: Delegation) => Carries(d, capability, now))
  }

  ghost predicate DrawsOn(listing: seq<Delegation>, capability: Capability, scope: ResourceScope, now: int) {
    var source := Source(listing, capability, now);
    source.Some? && scope.IsSubsetOf(listing[source.value].scope)
  }

  /** The chain is that of the delegation the capability is drawn from, and that delegation. */
  ghost predicate ExtendsSource(chain: seq<Id>, listing: seq<Delegation>, capability: Capability, now: int) {
    var source := Source(listing, capability, now);
    source.Some? && chain == listing[source.value].chain + [listing[source.value].id]
  }

  lemma {:induction false} ScanMeans(kind: PrincipalKind, held: seq<GrantedCapability>, listing: seq<Delegation>,
                                     request: DelegationRequest, now: int, n: nat)
    requires n <= |request.capabilities| && Scan(kind, held, listing, request, now, n).Ok?
    ensures var chain := Scan(kind, held, listing, request, now, n).value;
            && (forall k :: 0 <= k < n ==> GrantFor(held, request.capabilities[k]).Some?)
            && (kind != Agent ==> chain == [])
            && (kind == Agent ==> forall k :: 0 <= k < n ==> DrawsOn(listing, request.capabilities[k], request.scope, now))
            && (kind == Agent && n > 0 ==> ExtendsSource(chain, listing, request.capabilities[0], now))
  {
    hide GrantFor, Carries;
    if n > 0 {
      ScanMeans(kind, held, listing, request, now, n - 1);
    }
  }

  ghost predicate Held(config: Config, s: Stores, tenant: TenantContext, holder: Id, listing: seq<Delegation>,
                       capability: Capability, env: Env)
  {
    && holder in s.principals && PolicyOf(config, s, tenant).Some?
    && HeldGrant(Envelope(PolicyOf(config, s, tenant).value, s.principals[holder], tenant, listing, env.now, env.clock),
                 capability).Some?
  }

  /** Everything that is true when a delegation is accepted. */
  lemma DelegateCheckMeans(config: Config, s: Stores, t: Id, request: DelegationRequest, listing: seq<Delegation>, env: Env)
    requires DelegateCheck(config, s, t, request, listing, env).Ok?
    ensures var d := DelegateCheck(config, s, t, request, listing, env).value;
            && t in s.tenants && d.tenantId == s.tenants[t].tenantId
            && d == Delegation(request.id, request.delegator, request.delegate, d.tenantId, request.capabilities,
                               request.scope, request.issuedAt, request.expiresAt, None, d.chain)
            && d.id !in s.delegations && d.capabilities != [] && d.delegator != d.delegate
            && d.delegator in s.principals && d.delegate in s.principals
            && Unusable(s.principals[d.delegator]).None? && Unusable(s.principals[d.delegate]).None?
            && (forall c <- d.capabilities :: Held(config, s, s.tenants[t], d.delegator, listing, c, env))
            && (s.principals[d.delegator].kind != Agent ==> d.chain == [])
            && (s.principals[d.delegator].kind == Agent ==>
                  && (forall c <- d.capabilities :: DrawsOn(listing, c, d.scope, env.now))
                  && ExtendsSource(d.chain, listing, d.capabilities[0], env.now))
  {
    hide Scan, GrantFor, DrawsOn, ExtendsSource, RuleGrants, AddDelegations, ExpiresTooEarly;
    var tenant := s.tenants[t];
    var delegator, policy := s.principals[request.delegator], PolicyOf(config, s, tenant).value;
    var held := Envelope(policy, delegator, tenant, listing, env.now, env.clock).value;
    ScanMeans(delegator.kind, held, listing, request, env.now, |request.capabilities|);
    assert GrantFor(held, request.capabilities[0]).Some?;
  }

  // ----- Well-formed stores -----------------------------------------------------------------------

  /** The recorded chain extends the chain of the delegation it ends in, which the delegator holds. */
  ghost predicate ChainOk(s: Stores, d: Delegation) {
    && d.capabilities != []
    && Distinct(d.chain + [d.id])
    && (forall x <- d.chain :: x in s.delegations)
    && (d.chain != [] ==>
          var parent := s.delegations[d.chain[|d.chain| - 1]];
          && parent.chain == d.chain[..|d.chain| - 1]
          && parent.delegate == d.delegator && parent.tenantId == d.tenantId
          && d.capabilities[0] in parent.capabilities && d.scope.IsSubsetOf(parent.scope))
  }

  ghost predicate WithinDelegation(r: AgentRun, d: Delegation) {
    && r.tenantId == d.tenantId && r.agent == d.delegate && r.delegator == d.delegator
    && r.delegationChain == d.chain + [d.id]
    && (forall c <- r.capabilities :: c in d.capabilities)
    && r.scope.IsSubsetOf(d.scope)
    && (d.expiresAt.Some? ==> r.expiresAt <= d.expiresAt.value)
  }

  ghost predicate WithinRun(r: AgentRun, parent: AgentRun) {
    && r.tenantId == parent.tenantId
    && (forall c <- r.capabilities :: c in parent.capabilities)
    && r.scope.IsSubsetOf(parent.scope)
    && r.expiresAt <= parent.expiresAt
  }

  ghost predicate RunOk(s: Stores, r: AgentRun) {
    && r.delegationId in s.delegations && WithinDelegation(r, s.delegations[r.delegationId])
    && (r.parentRunId.Some? ==> r.parentRunId.value in s.runs && WithinRun(r, s.runs[r.parentRunId.value]))
  }

  ghost predicate WellFormed(s: Stores) {
    && (forall id <- s.principals :: s.principals[id].id == id)
    && (forall id <- s.delegations :: s.delegations[id].id == id && ChainOk(s, s.delegations[id]))
    && (forall id <- s.runs :: s.runs[id].id == id && RunOk(s, s.runs[id]))
  }

  lemma ChainOkGrows(s: Stores, t: Stores, d: Delegation, e: Delegation)
    requires ChainOk(s, d) && Grows(s, t) && DelegationGrows(d, e)
    ensures ChainOk(t, e)
  {
    assert e.chain == d.chain && e.id == d.id;
    if d.chain != [] {
      var last := d.chain[|d.chain| - 1];
      assert last in d.chain && DelegationGrows(s.delegations[last], t.delegations[last]);
    }
  }

  lemma RunOkGrows(s: Stores, t: Stores, r: AgentRun, q: AgentRun)
    requires RunOk(s, r) && Grows(s, t) && RunGrows(r, q)
    ensures RunOk(t, q)
  {
    assert DelegationGrows(s.delegations[r.delegationId], t.delegations[r.delegationId]);
    if r.parentRunId.Some? {
      assert RunGrows(s.runs[r.parentRunId.value], t.runs[r.parentRunId.value]);
    }
  }

  lemma NewDelegationOk(config: Config, s: Stores, t: Id, request: DelegationRequest, listing: seq<Delegation>, env: Env)
    requires WellFormed(s) && DelegateCheck(config, s, t, request, listing, env).Ok?
    requires t in s.tenants ==> Lists(listing, s, s.tenants[t].tenantId, request.delegator)
    ensures ChainOk(s, DelegateCheck(config, s, t, request, listing, env).value)
  {
    hide DelegateCheck, Unusable;
    DelegateCheckMeans(config, s, t, request, listing, env);
    var d := DelegateCheck(config, s, t, request, listing, env).value;
    if s.principals[d.delegator].kind == Agent {
      var parent := listing[Source(listing, d.capabilities[0], env.now).value];
      assert d.capabilities[0] in d.capabilities && parent in listing;
      assert DrawsOn(listing, d.capabilities[0], d.scope, env.now);
      assert ChainOk(s, parent);
      assert d.id !in d.chain;
      DistinctAppend(d.chain, d.id);
    }
  }

  lemma NewRunOk(s: Stores, n: nat, t: Id, agent: Id, request: RunRequest, revision: nat, env: Env)
    requires WellFormed(s) && CreateRunCheck(s, n, t, agent, request, revision, env).Ok?
    ensures RunOk(s, CreateRunCheck(s, n, t, agent, request, revision, env).value)
  {
    hide ChainOk, GeneratedRunId, TenantScopeHolds, Unusable;
    var d := s.delegations[request.delegationId];
    assert d.id == request.delegationId;
  }

  /** Where new entries come from. */
  ghost predicate AddsOnly(s: MeshState, op: Op, env: Env, t: Stores) {
    && (forall id <- t.principals ::
          t.principals[id].id == id || (id in s.stores.principals && t.principals[id].id == s.stores.principals[id].id))
    && (forall id <- t.delegations :: id !in s.stores.delegations ==>
          && op.DelegateOp?
          && DelegateCheck(s.config, s.stores, op.tenantId, op.delegation, op.listing, env) == Ok(t.delegations[id])
          && t.delegations[id].id == id)
    && (forall id <- t.runs :: id !in s.stores.runs ==>
          && op.CreateRunOp?
          && CreateRunCheck(s.stores, s.runSequence, op.tenantId, op.agent, op.run, op.revision, env) == Ok(t.runs[id])
          && t.runs[id].id == id)
  }

  lemma StepAddsOnly(s: MeshState, op: Op, env: Env)
    ensures AddsOnly(s, op, env, Step(s, op, env).0.stores)
  {
    hide AuthorizeCapability, AuthorizeRequest, AuthorizeRun, ResolveSession, DelegateCheck, CreateRunCheck, Append, TenantOf,
         SignUp, SignIn, Logout, LinkAccount;
    SessionsAddNothing(s.stores, op);
    match op {
      case DelegateOp(t, request, listing) =>
        DelegateCheckPlan(s.config, s.stores, t, request, listing, env);
      case SignUpOp(t, connector, subject, kind, claims, session, expiresAt) =>
        SignUpWrites(s.config, s.stores, t, connector, subject, kind, claims, session, expiresAt);
      case _ =>
    }
  }

  /** Sessions and bindings touch no principal, delegation or run. */
  lemma SessionsAddNothing(s: Stores, op: Op)
    ensures op.SignInOp? ==>
              var r := SignIn(s, op.tenantId, op.sessionId, op.connector, op.subject, op.expiresAt);
              r.Ok? ==> (r.value.stores.principals, r.value.stores.delegations, r.value.stores.runs) == (s.principals, s.delegations, s.runs)
    ensures op.LogoutOp? ==>
              var r := Logout(s, op.tenantId, op.sessionId);
              r.Ok? ==> (r.value.stores.principals, r.value.stores.delegations, r.value.stores.runs) == (s.principals, s.delegations, s.runs)
    ensures op.LinkOp? ==>
              var r := LinkAccount(s, op.tenantId, op.principalId, op.connector, op.subject);
              r.Ok? ==> (r.value.stores.principals, r.value.stores.delegations, r.value.stores.runs) == (s.principals, s.delegations, s.runs)
  {
    hide TenantOf;
  }

  lemma DelegateCheckPlan(config: Config, s: Stores, t: Id, request: DelegationRequest, listing: seq<Delegation>, env: Env)
    ensures var r := DelegateCheck(config, s, t, request, listing, env); r.Ok? ==> r.value.id == request.id
  {
    hide Scan, Envelope, PolicyOf;
  }

  lemma StepKeepsWellFormed(s: MeshState, op: Op, env: Env)
    requires WellFormed(s.stores) && Admissible(s.stores, op)
    ensures WellFormed(Step(s, op, env).0.stores)
  {
    hide Step, DelegateCheck, CreateRunCheck, ChainOk, RunOk, Lists;
    var t := Step(s, op, env).0.stores;
    StepGrows(s, op, env);
    StepAddsOnly(s, op, env);
    forall id | id in t.delegations ensures t.delegations[id].id == id && ChainOk(t, t.delegations[id]) {
      if id in s.stores.delegations {
        ChainOkGrows(s.stores, t, s.stores.delegations[id], t.delegations[id]);
      } else {
        NewDelegationOk(s.config, s.stores, op.tenantId, op.delegation, op.listing, env);
        ChainOkGrows(s.stores, t, t.delegations[id], t.delegations[id]);
      }
    }
    forall id | id in t.runs ensures t.runs[id].id == id && RunOk(t, t.runs[id]) {
      if id in s.stores.runs {
        RunOkGrows(s.stores, t, s.stores.runs[id], t.runs[id]);
      } else {
        NewRunOk(s.stores, s.runSequence, op.tenantId, op.agent, op.run, op.revision, env);
        RunOkGrows(s.stores, t, t.runs[id], t.runs[id]);
      }
    }
  }

  /** Every state of every run has well-formed stores. */
  lemma {:induction false} ReachableIsWellFormed(b: Behavior, n: nat)
    requires b.IsRun() && n < |b.states|
    ensures WellFormed(b.states[n].stores)
  {
    hide Step, ChainOk, RunOk;
    if n > 0 {
      ReachableIsWellFormed(b, n - 1);
      StepKeepsWellFormed(b.states[n - 1], b.ops[n - 1], b.envs[n - 1]);
    }
  }

  // ----- Delegation chains ------------------------------------------------------------------------

  /** Each delegation of the line was held by the next one's delegator and covers the next one's scope and
      first capability. */
  ghost predicate ChainLink(s: Stores, x: Id, y: Id) {
    && x in s.delegations && y in s.delegations
    && s.delegations[x].delegate == s.delegations[y].delegator
    && s.delegations[y].scope.IsSubsetOf(s.delegations[x].scope)
    && s.delegations[y].capabilities != []
    && s.delegations[y].capabilities[0] in s.delegations[x].capabilities
  }

  /** A stored chain is a line of distinct stored delegations, each recording exactly the line before it. */
  lemma {:induction false} ChainIsALine(s: Stores, id: Id, k: nat)
    requires WellFormed(s) && id in s.delegations && k <= |s.delegations[id].chain|
    ensures var line := s.delegations[id].chain + [id];
            && Distinct(line)
            && line[k] in s.delegations && s.delegations[line[k]].chain == line[..k]
            && (k < |line| - 1 ==> ChainLink(s, line[k], line[k + 1]))
    decreases |s.delegations[id].chain|
  {
    hide WellFormed, ResourceScope.IsSubsetOf;
    var d := s.delegations[id];
    StoredChainOk(s, id);
    if k < |d.chain| {
      var parent := d.chain[|d.chain| - 1];
      var line := s.delegations[parent].chain + [parent];
      assert parent in d.chain;
      assert line == d.chain;
      ChainIsALine(s, parent, k);
      assert (d.chain + [id])[..k] == line[..k];
    }
  }

  lemma StoredChainOk(s: Stores, id: Id)
    requires WellFormed(s) && id in s.delegations
    ensures s.delegations[id].id == id && ChainOk(s, s.delegations[id])
  {
  }

  // ----- Provenance -------------------------------------------------------------------------------

  /** Step `i` accepted the delegation `id`. */
  ghost predicate MadeAt(b: Behavior, i: nat, id: Id)
    requires b.IsRun()
  {
    && i < |b.ops| && b.ops[i].DelegateOp?
    && id !in b.states[i].stores.delegations && id in b.states[i + 1].stores.delegations
    && DelegateCheck(b.states[i].config, b.states[i].stores, b.ops[i].tenantId, b.ops[i].delegation, b.ops[i].listing,
                     b.envs[i]) == Ok(b.states[i + 1].stores.delegations[id])
  }

  lemma {:induction false} CreationStep(b: Behavior, n: nat, id: Id) returns (i: nat)
    requires b.IsRun() && n < |b.states| && id in b.states[n].stores.delegations
    ensures i < n && MadeAt(b, i, id)
    ensures DelegationGrows(b.states[i + 1].stores.delegations[id], b.states[n].stores.delegations[id])
  {
    hide Step, DelegateCheck, CreateRunCheck;
    var prior := b.states[n - 1].stores;
    if id in prior.delegations {
      i := CreationStep(b, n - 1, id);
      StepGrows(b.states[n - 1], b.ops[n - 1], b.envs[n - 1]);
      assert DelegationGrows(prior.delegations[id], b.states[n].stores.delegations[id]);
    } else {
      i := n - 1;
      StepAddsOnly(b.states[i], b.ops[i], b.envs[i]);
    }
  }

  /** A line of distinct delegations that all carry `c`, each held by the delegator of the next and covering
      the scope of the next. */
  ghost predicate CarryingLine(s: Stores, line: seq<Id>, c: Capability) {
    && line != [] && Distinct(line)
    && (forall x <- line :: x in s.delegations && c in s.delegations[x].capabilities)
    && (forall k :: 0 < k < |line| ==> LinkOk(s, line[k - 1], line[k]))
  }

  ghost predicate LinkOk(s: Stores, x: Id, y: Id) {
    && x in s.delegations && y in s.delegations
    && s.delegations[x].delegate == s.delegations[y].delegator
    && s.delegations[y].scope.IsSubsetOf(s.delegations[x].scope)
  }

  ghost predicate IsAgent(s: Stores, id: Id) {
    id in s.principals && s.principals[id].kind == Agent
  }

  /** When the delegation was made, its delegator was no agent and held the capability. */
  ghost predicate Origin(b: Behavior, i: nat, id: Id, c: Capability)
    requires b.IsRun()
  {
    && MadeAt(b, i, id)
    && var s, op := b.states[i].stores, b.ops[i];
       && !IsAgent(s, op.delegation.delegator)
       && op.tenantId in s.tenants
       && Held(b.states[i].config, s, s.tenants[op.tenantId], op.delegation.delegator, op.listing, c, b.envs[i])
  }

  lemma CarryingLineGrows(s: Stores, t: Stores, line: seq<Id>, c: Capability)
    requires CarryingLine(s, line, c) && Grows(s, t)
    ensures CarryingLine(t, line, c)
  {
    forall x | x in line ensures x in t.delegations && c in t.delegations[x].capabilities {
      assert DelegationGrows(s.delegations[x], t.delegations[x]);
    }
    forall k | 0 < k < |line| ensures LinkOk(t, line[k - 1], line[k]) {
      var x, y := line[k - 1], line[k];
      assert LinkOk(s, x, y);
      assert DelegationGrows(s.delegations[x], t.delegations[x]) && DelegationGrows(s.delegations[y], t.delegations[y]);
    }
  }

  /** The delegations of the line were made one after another, all but the first by agents, each drawing on the one
      before while that was live. */
  ghost predicate MadeInOrder(b: Behavior, line: seq<Id>, made: seq<nat>)
    requires b.IsRun()
  {
    && |made| == |line|
    && (forall k :: 0 <= k < |made| ==> MadeAt(b, made[k], line[k]))
    && (forall k :: 0 < k < |made| ==>
          made[k - 1] < made[k] && LiveWhenMade(b, line[k - 1], made[k]) && ByAgent(b, made[k]))
  }

  /** The delegation was stored and live when step `i` was taken. */
  ghost predicate LiveWhenMade(b: Behavior, id: Id, i: nat)
    requires b.IsRun()
  {
    && i < |b.ops| && id in b.states[i].stores.delegations
    && b.states[i].stores.delegations[id].IsValidAt(b.envs[i].now)
  }

  /** The delegator of the delegation made at step `i` was an agent then. */
  ghost predicate ByAgent(b: Behavior, i: nat)
    requires b.IsRun()
  {
    i < |b.ops| && b.ops[i].DelegateOp? && IsAgent(b.states[i].stores, b.ops[i].delegation.delegator)
  }

  /** Every capability of every delegation traces back along a finite line of ever earlier delegations, narrowing
      all the way and each live when drawn on, to a delegator that is no agent and held the capability when it
      delegated it. */
  lemma {:induction false} Provenance(b: Behavior, n: nat, id: Id, c: Capability) returns (line: seq<Id>, made: seq<nat>)
    requires b.IsRun() && n < |b.states|
    requires id in b.states[n].stores.delegations && c in b.states[n].stores.delegations[id].capabilities
    ensures line != [] && CarryingLine(b.states[n].stores, line, c) && line[|line| - 1] == id
    ensures MadeInOrder(b, line, made) && made[|made| - 1] < n
    ensures Origin(b, made[0], line[0], c)
    decreases n
  {
    hide Step, DelegateCheck, CarryingLine, WellFormed, Held, Source, Unusable, Origin, MadeAt, LiveWhenMade;
    var i := CreationStep(b, n, id);
    var s, op := b.states[i].stores, b.ops[i];
    MadeMeans(b, i, id);
    var d := b.states[i + 1].stores.delegations[id];
    StatesGrow(b, i + 1, n);
    if s.principals[d.delegator].kind != Agent {
      line, made := [id], [i];
      SingleLine(b.states[n].stores, id, c);
      OriginIs(b, i, id, c);
    } else {
      var parent := SourceOf(s, op.listing, s.tenants[op.tenantId].tenantId, d, c, b.envs[i].now);
      var before, earlier := Provenance(b, i, parent.id, c);
      StatesGrow(b, i, n);
      line, made := before + [id], earlier + [i];
      ExtendLine(s, b.states[n].stores, before, id, c);
      assert LiveWhenMade(b, parent.id, i) by { LiveIs(b, parent, i); }
      assert ByAgent(b, i);
      ExtendMade(b, before, earlier, id, i);
    }
  }

  lemma LiveIs(b: Behavior, d: Delegation, i: nat)
    requires b.IsRun() && i < |b.ops| && d.id in b.states[i].stores.delegations
    requires b.states[i].stores.delegations[d.id] == d && d.IsValidAt(b.envs[i].now)
    ensures LiveWhenMade(b, d.id, i)
  {
  }

  lemma ExtendMade(b: Behavior, line: seq<Id>, made: seq<nat>, id: Id, i: nat)
    requires b.IsRun() && line != [] && MadeInOrder(b, line, made) && made[|made| - 1] < i
    requires MadeAt(b, i, id) && LiveWhenMade(b, line[|line| - 1], i) && ByAgent(b, i)
    ensures MadeInOrder(b, line + [id], made + [i])
  {
    hide MadeAt, LiveWhenMade, ByAgent, Step, Behavior.IsRun;
    var longer, steps := line + [id], made + [i];
    forall k | 0 <= k < |steps| ensures MadeAt(b, steps[k], longer[k]) {
      assert k < |made| ==> MadeAt(b, made[k], line[k]);
    }
    forall k | 0 < k < |steps|
      ensures steps[k - 1] < steps[k] && LiveWhenMade(b, longer[k - 1], steps[k]) && ByAgent(b, steps[k])
    {
      assert k < |made| ==> made[k - 1] < made[k] && LiveWhenMade(b, line[k - 1], made[k]) && ByAgent(b, made[k]);
    }
  }

  /** What the step that made a delegation shows about it. */
  lemma MadeMeans(b: Behavior, i: nat, id: Id)
    requires b.IsRun() && MadeAt(b, i, id)
    ensures b.ops[i].DelegateOp? && id in b.states[i + 1].stores.delegations
    ensures var (s, op, d) := (b.states[i].stores, b.ops[i], b.states[i + 1].stores.delegations[id]);
            && op.tenantId in s.tenants && Lists(op.listing, s, s.tenants[op.tenantId].tenantId, d.delegator)
            && d.delegator == op.delegation.delegator && d.delegator in s.principals && id !in s.delegations
            && (s.principals[d.delegator].kind == Agent ==>
                  forall c <- d.capabilities :: DrawsOn(op.listing, c, d.scope, b.envs[i].now))
            && (forall c <- d.capabilities ::
                  Held(b.states[i].config, s, s.tenants[op.tenantId], d.delegator, op.listing, c, b.envs[i]))
  {
    hide Step, DelegateCheck, Held, Source, DrawsOn, Unusable;
    var s, op := b.states[i].stores, b.ops[i];
    DelegateCheckMeans(b.states[i].config, s, op.tenantId, op.delegation, op.listing, b.envs[i]);
  }

  lemma OriginIs(b: Behavior, i: nat, id: Id, c: Capability)
    requires b.IsRun() && MadeAt(b, i, id)
    requires var d := b.states[i + 1].stores.delegations[id];
             c in d.capabilities && d.delegator in b.states[i].stores.principals
             && b.states[i].stores.principals[d.delegator].kind != Agent
    ensures Origin(b, i, id, c)
  {
    hide Held;
    MadeMeans(b, i, id);
  }

  lemma SingleLine(s: Stores, id: Id, c: Capability)
    requires id in s.delegations && c in s.delegations[id].capabilities
    ensures CarryingLine(s, [id], c)
  {
  }

  /** The delegation an agent drew a capability from is one it held. */
  lemma SourceOf(s: Stores, listing: seq<Delegation>, tenantId: Id, d: Delegation, c: Capability, now: int)
    returns (parent: Delegation)
    requires Lists(listing, s, tenantId, d.delegator) && DrawsOn(listing, c, d.scope, now)
    ensures parent.id in s.delegations && s.delegations[parent.id] == parent
    ensures parent.delegate == d.delegator && c in parent.capabilities && d.scope.IsSubsetOf(parent.scope)
    ensures parent.IsValidAt(now)
  {
    parent := listing[Source(listing, c, now).value];
    assert parent in listing;
  }

  lemma ExtendLine(s: Stores, t: Stores, line: seq<Id>, id: Id, c: Capability)
    requires CarryingLine(s, line, c) && Grows(s, t)
    requires id !in s.delegations && id in t.delegations && c in t.delegations[id].capabilities
    requires var last := s.delegations[line[|line| - 1]];
             && last.delegate == t.delegations[id].delegator
             && t.delegations[id].scope.IsSubsetOf(last.scope)
    ensures CarryingLine(t, line + [id], c)
  {
    CarryingLineGrows(s, t, line, c);
    DistinctAppend(line, id);
    var longer, last := line + [id], line[|line| - 1];
    assert last in line && DelegationGrows(s.delegations[last], t.delegations[last]);
    assert LinkOk(t, last, id);
    forall k | 0 < k < |longer| ensures LinkOk(t, longer[k - 1], longer[k]) {
      if k < |line| {
        assert LinkOk(t, line[k - 1], line[k]);
      }
    }
  }

  // ----- What a run may not exceed ------------------------------------------------------------------

  /** A run followed by its parent, its parent's parent, and so on. */
  ghost predicate AncestorPath(s: Stores, path: seq<Id>) {
    && path != [] && (forall x <- path :: x in s.runs)
    && forall k :: 0 < k < |path| ==> s.runs[path[k - 1]].parentRunId == Some(path[k])
  }

  ghost predicate RunCovers(s: Stores, runId: Id, request: AuthorizationRequest,
                            attributes: Option<ResourceAttributes>, now: int)
  {
    && runId in s.runs && s.runs[runId].delegationId in s.delegations
    && var r, d := s.runs[runId], s.delegations[s.runs[runId].delegationId];
       && request.capability in r.capabilities && ScopeMatches(r.scope, request, attributes) && now < r.expiresAt
       && request.capability in d.capabilities && ScopeMatches(d.scope, request, attributes)
       && (d.expiresAt.Some? ==> now < d.expiresAt.value)
  }

  lemma CoversDelegation(s: Stores, runId: Id, request: AuthorizationRequest, attributes: Option<ResourceAttributes>, now: int)
    requires WellFormed(s) && runId in s.runs
    requires var r := s.runs[runId];
             request.capability in r.capabilities && ScopeMatches(r.scope, request, attributes) && now < r.expiresAt
    ensures RunCovers(s, runId, request, attributes, now)
  {
    hide ScopeMatches, ChainOk;
    assert RunOk(s, s.runs[runId]);
    ScopeMatchingIsMonotone(s.runs[runId].scope, s.delegations[s.runs[runId].delegationId].scope, request, attributes);
  }

  lemma {:induction false} AncestorsCover(s: Stores, path: seq<Id>, k: nat, request: AuthorizationRequest,
                                          attributes: Option<ResourceAttributes>, now: int)
    requires WellFormed(s) && AncestorPath(s, path) && k < |path|
    requires RunCovers(s, path[0], request, attributes, now)
    ensures RunCovers(s, path[k], request, attributes, now)
  {
    hide ScopeMatches, ChainOk;
    if k > 0 {
      AncestorsCover(s, path, k - 1, request, attributes, now);
      var child, parent := s.runs[path[k - 1]], s.runs[path[k]];
      assert RunOk(s, child) && child.parentRunId == Some(path[k]);
      ScopeMatchingIsMonotone(child.scope, parent.scope, request, attributes);
      CoversDelegation(s, path[k], request, attributes, now);
    }
  }

  /** An Allow under a run lies within that run, every ancestor run, and each one's delegation, and comes
      before all their expiries. */
  lemma AllowedUnderRunIsCovered(b: Behavior, n: nat, path: seq<Id>, k: nat)
    requires b.IsRun() && n < |b.ops| && b.ops[n].AuthorizeRunOp?
    requires b.ReplyAt(n).Decided? && b.ReplyAt(n).decision.Allow?
    requires AncestorPath(b.states[n].stores, path) && path[0] == b.ops[n].runId && k < |path|
    ensures RunCovers(b.states[n].stores, path[k], b.ops[n].request, b.ops[n].attributes, b.envs[n].now)
    ensures var r := b.states[n].stores.runs[b.ops[n].runId];
            r.status == RunActive && r.agent == b.ops[n].context.principal.id && r.tenantId == b.ops[n].context.tenant.tenantId
  {
    hide ScopeMatches, WellFormed, RunCovers, AuthorizeRequest, AuthorizeCapability, PolicyOf;
    ReachableIsWellFormed(b, n);
    var s, op := b.states[n].stores, b.ops[n];
    RunDenialDenies(b.states[n], op, b.envs[n]);
    CoversDelegation(s, op.runId, op.request, op.attributes, b.envs[n].now);
    AncestorsCover(s, path, k, op.request, op.attributes, b.envs[n].now);
  }

  lemma RunDenialDenies(s: MeshState, op: Op, env: Env)
    requires op.AuthorizeRunOp?
    ensures RunDenial(s.stores, op.context, op.runId, op.request, op.attributes, env.now).Some? ==>
            Step(s, op, env).1.Decided? && Step(s, op, env).1.decision.Deny?
  {
    hide AuthorizeRequest, RunDenial, PolicyOf, Remember;
  }

  lemma {:induction false} RunCreationStep(b: Behavior, n: nat, id: Id) returns (i: nat)
    requires b.IsRun() && n < |b.states| && id in b.states[n].stores.runs
    ensures i < n && id !in b.states[i].stores.runs && id in b.states[i + 1].stores.runs && b.ops[i].CreateRunOp?
    ensures RunGrows(b.states[i + 1].stores.runs[id], b.states[n].stores.runs[id])
    ensures var p := b.states[n].stores.runs[id].parentRunId; p.Some? ==> p.value in b.states[i].stores.runs
  {
    hide Step, DelegateCheck, CreateRunCheck;
    var prior := b.states[n - 1].stores;
    if id in prior.runs {
      i := RunCreationStep(b, n - 1, id);
      StepGrows(b.states[n - 1], b.ops[n - 1], b.envs[n - 1]);
      assert RunGrows(prior.runs[id], b.states[n].stores.runs[id]);
    } else {
      i := n - 1;
      StepAddsOnly(b.states[i], b.ops[i], b.envs[i]);
      ReachableIsWellFormed(b, i);
      var op := b.ops[i];
      NewRunOk(prior, b.states[i].runSequence, op.tenantId, op.agent, op.run, op.revision, b.envs[i]);
    }
  }

  /** Ancestors are strictly older: every run has a finite path to a parentless run, and no path repeats. */
  lemma {:induction false} AncestryIsFinite(b: Behavior, n: nat, id: Id) returns (path: seq<Id>)
    requires b.IsRun() && n < |b.states| && id in b.states[n].stores.runs
    ensures AncestorPath(b.states[n].stores, path) && path[0] == id && Distinct(path)
    ensures b.states[n].stores.runs[path[|path| - 1]].parentRunId.None?
    decreases n
  {
    hide Step, WellFormed;
    var i := RunCreationStep(b, n, id);
    var s := b.states[n].stores;
    var parent := s.runs[id].parentRunId;
    if parent.None? {
      path := [id];
    } else {
      var rest := AncestryIsFinite(b, i, parent.value);
      StatesGrow(b, i, n);
      path := [id] + rest;
      var before := b.states[i].stores;
      assert forall x <- rest :: x in before.runs && RunGrows(before.runs[x], s.runs[x]);
      assert id !in rest;
      forall k | 0 < k < |path| ensures s.runs[path[k - 1]].parentRunId == Some(path[k]) {
        if k > 1 {
          assert before.runs[rest[k - 2]].parentRunId == Some(rest[k - 1]);
        }
      }
    }
  }

  // ----- What stays stopped -------------------------------------------------------------------------

  ghost predicate Stopped(s: Stores, agent: Id) {
    agent in s.principals && Unusable(s.principals[agent]).Some?
  }

  /** The principal a sign-up writes, whatever was stored under its id. */
  function Registers(s: MeshState, op: Op): Option<Principal> {
    if op.SignUpOp? then
      match SignUp(s.config, s.stores, op.tenantId, op.connector, op.subject, op.kind, op.claims, op.sessionId, op.expiresAt)
      case Ok(change) => Some(change.value)
      case Err(_) => None
    else None
  }

  /** The step writes an active agent under the id. */
  predicate MakesAgent(s: MeshState, op: Op, id: Id) {
    || (op.CreateAgentOp? && op.agent == id && CreateAgent(s.stores, op.tenantId, id).Ok?)
    || (Registers(s, op).Some? && Registers(s, op).value.id == id && Registers(s, op).value.kind == Agent)
  }

  /** The step writes a principal that is no agent under the id. */
  predicate MakesOther(s: MeshState, op: Op, id: Id) {
    Registers(s, op).Some? && Registers(s, op).value.id == id && Registers(s, op).value.kind != Agent
  }

  /** The step writes the principal anew, able to act. */
  predicate Revives(s: MeshState, op: Op, id: Id) {
    MakesAgent(s, op, id) || MakesOther(s, op, id)
  }

  /** The step suspends, revokes or retires the agent. */
  predicate Stops(s: MeshState, op: Op, agent: Id) {
    op.SetAgentStateOp? && op.agent == agent && SetAgentState(s.stores, op.tenantId, agent, op.state).Ok?
  }

  /** Only three operations write principals. */
  lemma PrincipalsKept(s: MeshState, op: Op, env: Env)
    requires !op.SignUpOp? && !op.SetAgentStateOp? && !op.CreateAgentOp?
    ensures Step(s, op, env).0.stores.principals == s.stores.principals
  {
    hide AuthorizeCapability, AuthorizeRequest, AuthorizeRun, ResolveSession, DelegateCheck, CreateRunCheck, Append,
         TenantOf, PrincipalOf;
  }

  /** A sign-up writes the principal it returns, which may act. */
  lemma SignUpWrites(config: Config, s: Stores, t: Id, connector: string, subject: string, kind: PrincipalKind,
                     claims: Attributes, session: Id, expiresAt: int)
    ensures var r := SignUp(config, s, t, connector, subject, kind, claims, session, expiresAt);
            r.Ok? ==> r.value.stores.principals == s.principals[r.value.value.id := r.value.value]
                      && Unusable(r.value.value).None?
                      && (r.value.stores.delegations, r.value.stores.runs) == (s.delegations, s.runs)
  {
    hide TenantOf, PrincipalIdFor;
  }

  lemma StopStops(s: Stores, t: Id, id: Id, state: AgentState, agent: Id)
    requires agent in s.principals && state in {Suspended, Revoked, Retired}
    ensures var r := SetAgentState(s, t, id, state);
            r.Ok? ==> agent in r.value.stores.principals
                      && (id == agent ==> Stopped(r.value.stores, agent) && IsAgent(s, agent) && IsAgent(r.value.stores, agent))
                      && (id != agent ==> r.value.stores.principals[agent] == s.principals[agent])
  {
    hide TenantOf;
  }

  lemma CreateStarts(s: Stores, t: Id, id: Id, agent: Id)
    requires agent in s.principals
    ensures var r := CreateAgent(s, t, id);
            r.Ok? ==> agent in r.value.0.principals
                      && (id == agent ==> !Stopped(r.value.0, agent) && IsAgent(r.value.0, agent))
                      && (id != agent ==> r.value.0.principals[agent] == s.principals[agent])
  {
    hide TenantOf;
  }

  /** The stores after an operation that writes principals. */
  lemma WritesMean(s: MeshState, op: Op, env: Env)
    ensures op.SignUpOp? ==>
              var r := SignUp(s.config, s.stores, op.tenantId, op.connector, op.subject, op.kind, op.claims, op.sessionId,
                              op.expiresAt);
              Step(s, op, env).0.stores == if r.Ok? then r.value.stores else s.stores
    ensures op.SetAgentStateOp? ==>
              var r := SetAgentState(s.stores, op.tenantId, op.agent, op.state);
              Step(s, op, env).0.stores == if r.Ok? then r.value.stores else s.stores
    ensures op.CreateAgentOp? ==>
              var r := CreateAgent(s.stores, op.tenantId, op.agent);
              Step(s, op, env).0.stores == if r.Ok? then r.value.0 else s.stores
  {
    hide SignUp, SetAgentState, CreateAgent, Append;
  }

  lemma StepStops(s: MeshState, op: Op, env: Env, agent: Id)
    requires Admissible(s.stores, op) && agent in s.stores.principals
    ensures agent in Step(s, op, env).0.stores.principals
    ensures Stopped(Step(s, op, env).0.stores, agent) <==>
            Stops(s, op, agent) || (Stopped(s.stores, agent) && !Revives(s, op, agent))
    ensures IsAgent(Step(s, op, env).0.stores, agent) <==>
            MakesAgent(s, op, agent) || (IsAgent(s.stores, agent) && !MakesOther(s, op, agent))
  {
    hide Step, SignUp, SetAgentState, CreateAgent, Unusable;
    WritesMean(s, op, env);
    match op {
      case SignUpOp(t, connector, subject, kind, claims, session, expiresAt) =>
        SignUpWrites(s.config, s.stores, t, connector, subject, kind, claims, session, expiresAt);
      case SetAgentStateOp(t, id, state) => StopStops(s.stores, t, id, state, agent);
      case CreateAgentOp(t, id) => CreateStarts(s.stores, t, id, agent);
      case _ => PrincipalsKept(s, op, env);
    }
  }

  /** Every bad step from `i` up to `j` is followed by a good one. */
  ghost predicate Redressed(bad: nat -> bool, good: nat -> bool, i: nat, j: nat) {
    forall k :: i <= k < j && bad(k) ==> exists l :: k < l < j && good(l)
  }

  lemma RedressedStep(bad: nat -> bool, good: nat -> bool, i: nat, j: nat)
    requires i < j && !(bad(j - 1) && good(j - 1))
    ensures Redressed(bad, good, i, j) <==> good(j - 1) || (Redressed(bad, good, i, j - 1) && !bad(j - 1))
  {
    if good(j - 1) {
      forall k | i <= k < j && bad(k) ensures exists l :: k < l < j && good(l) {
        assert k < j - 1;
      }
    }
  }

  lemma NothingToRedress(bad: nat -> bool, good: nat -> bool, i: nat)
    ensures Redressed(bad, good, i, i)
  {
  }

  /** The steps that write the principal anew. */
  ghost function Revivals(b: Behavior, id: Id): nat -> bool {
    (k: nat) => k < |b.ops| && k < |b.states| && Revives(b.states[k], b.ops[k], id)
  }

  /** The steps that suspend, revoke or retire the agent. */
  ghost function StopsOf(b: Behavior, id: Id): nat -> bool {
    (k: nat) => k < |b.ops| && k < |b.states| && Stops(b.states[k], b.ops[k], id)
  }

  ghost function AgentWrites(b: Behavior, id: Id): nat -> bool {
    (k: nat) => k < |b.ops| && k < |b.states| && MakesAgent(b.states[k], b.ops[k], id)
  }

  ghost function OtherWrites(b: Behavior, id: Id): nat -> bool {
    (k: nat) => k < |b.ops| && k < |b.states| && MakesOther(b.states[k], b.ops[k], id)
  }

  lemma NotBoth(s: MeshState, op: Op, id: Id)
    ensures !(Stops(s, op, id) && Revives(s, op, id)) && !(MakesAgent(s, op, id) && MakesOther(s, op, id))
  {
    hide SignUp, CreateAgent, SetAgentState;
  }

  /** A stopped agent is still stopped later exactly when every time the control route or a sign-up has written it
      anew it has been stopped again since; without such a write, for good. */
  lemma {:induction false} StoppedExactly(b: Behavior, i: nat, j: nat, agent: Id)
    requires b.IsRun() && i <= j < |b.states| && Stopped(b.states[i].stores, agent)
    ensures agent in b.states[j].stores.principals
    ensures Stopped(b.states[j].stores, agent) <==> Redressed(Revivals(b, agent), StopsOf(b, agent), i, j)
  {
    hide Step, Stops, Revives, MakesAgent, MakesOther, Stopped, Redressed;
    if i == j {
      NothingToRedress(Revivals(b, agent), StopsOf(b, agent), i);
      StoppedIsThere(b.states[i].stores, agent);
    } else {
      StoppedExactly(b, i, j - 1, agent);
      StepStops(b.states[j - 1], b.ops[j - 1], b.envs[j - 1], agent);
      NotBoth(b.states[j - 1], b.ops[j - 1], agent);
      RedressedStep(Revivals(b, agent), StopsOf(b, agent), i, j);
    }
  }

  /** An agent is still an agent later exactly when every sign-up that has put another principal in its place has
      been followed by a write of an agent. */
  lemma {:induction false} AgentExactly(b: Behavior, i: nat, j: nat, id: Id)
    requires b.IsRun() && i <= j < |b.states| && IsAgent(b.states[i].stores, id)
    ensures id in b.states[j].stores.principals
    ensures IsAgent(b.states[j].stores, id) <==> Redressed(OtherWrites(b, id), AgentWrites(b, id), i, j)
  {
    hide Step, MakesAgent, MakesOther, Redressed;
    if i == j {
      NothingToRedress(OtherWrites(b, id), AgentWrites(b, id), i);
    } else {
      AgentExactly(b, i, j - 1, id);
      StepStops(b.states[j - 1], b.ops[j - 1], b.envs[j - 1], id);
      NotBoth(b.states[j - 1], b.ops[j - 1], id);
      RedressedStep(OtherWrites(b, id), AgentWrites(b, id), i, j);
    }
  }

  lemma StoppedIsThere(s: Stores, agent: Id)
    ensures Stopped(s, agent) ==> agent in s.principals
  {
  }

  /** The control route undoes a stop: right after it the agent is active, even if it was revoked. */
  lemma CreatingRevives(b: Behavior, i: nat)
    requires b.IsRun() && i < |b.ops| && b.ops[i].CreateAgentOp? && b.ReplyAt(i).Provisioned? && b.ReplyAt(i).principal.Ok?
    ensures var agent := b.ops[i].agent;
            agent in b.states[i + 1].stores.principals && !Stopped(b.states[i + 1].stores, agent)
            && b.states[i + 1].stores.principals[agent].agentState == Some(Active)
  {
    hide TenantOf;
  }

  /** So does a sign-up that is not refused: it overwrites whatever principal is stored under the id of its external
      identity, be it a revoked agent. */
  lemma SigningUpRevives(b: Behavior, i: nat)
    requires b.IsRun() && i < |b.ops| && Registers(b.states[i], b.ops[i]).Some?
    ensures var p := Registers(b.states[i], b.ops[i]).value;
            && p.id in b.states[i + 1].stores.principals && b.states[i + 1].stores.principals[p.id] == p
            && !Stopped(b.states[i + 1].stores, p.id) && p.kind == b.ops[i].kind
  {
    hide Step, TenantOf, PrincipalIdFor;
    var s, op := b.states[i], b.ops[i];
    WritesMean(s, op, b.envs[i]);
    SignUpWrites(s.config, s.stores, op.tenantId, op.connector, op.subject, op.kind, op.claims, op.sessionId, op.expiresAt);
  }

  /** An external identity signs up at most once, and stays bound to the principal it then got. */
  lemma SignsUpOnce(b: Behavior, i: nat, j: nat)
    requires b.IsRun() && i < j < |b.ops| && Registers(b.states[i], b.ops[i]).Some? && b.ops[j].SignUpOp?
    requires TenantOf(b.states[i].stores, b.ops[i].tenantId) == TenantOf(b.states[j].stores, b.ops[j].tenantId)
    requires (b.ops[i].connector, b.ops[i].subject) == (b.ops[j].connector, b.ops[j].subject)
    ensures Registers(b.states[j], b.ops[j]).None?
  {
    hide Step, TenantOf, PrincipalIdFor;
    var s, op := b.states[i], b.ops[i];
    WritesMean(s, op, b.envs[i]);
    StatesGrow(b, i + 1, j);
    assert External(TenantOf(s.stores, op.tenantId).value.tenantId, op.connector, op.subject) in b.states[j].stores.bindings;
  }

  /** While an agent is stopped no session resolves to it, and no step stores a delegation from or to it or a run
      for it. */
  lemma StoppedCannotAct(b: Behavior, j: nat, agent: Id)
    requires b.IsRun() && j < |b.ops| && Stopped(b.states[j].stores, agent)
    ensures b.ReplyAt(j).Resolved? && b.ReplyAt(j).context.Ok? ==> b.ReplyAt(j).context.value.principal.id != agent
    ensures forall id <- b.states[j + 1].stores.delegations :: id !in b.states[j].stores.delegations ==>
              var d := b.states[j + 1].stores.delegations[id]; d.delegator != agent && d.delegate != agent
    ensures forall id <- b.states[j + 1].stores.runs :: id !in b.states[j].stores.runs ==>
              b.states[j + 1].stores.runs[id].agent != agent
  {
    hide Step, DelegateCheck, CreateRunCheck, Unusable, ChainOk, RunOk;
    ReachableIsWellFormed(b, j);
    var s, op, env := b.states[j], b.ops[j], b.envs[j];
    StepAddsOnly(s, op, env);
    ResolvesUsable(s, op, env);
    if op.DelegateOp? && DelegateCheck(s.config, s.stores, op.tenantId, op.delegation, op.listing, env).Ok? {
      DelegateCheckMeans(s.config, s.stores, op.tenantId, op.delegation, op.listing, env);
    }
    if op.CreateRunOp? && CreateRunCheck(s.stores, s.runSequence, op.tenantId, op.agent, op.run, op.revision, env).Ok? {
      CreatedForUsable(s.stores, s.runSequence, op.tenantId, op.agent, op.run, op.revision, env);
    }
  }

  ghost predicate NeverRevived(b: Behavior, i: nat, j: nat, agent: Id)
    requires i <= j <= |b.ops| < |b.states|
  {
    forall k :: i <= k < j ==> !Revives(b.states[k], b.ops[k], agent)
  }

  /** Once an agent is suspended, revoked or retired it stays stopped as long as neither the control route nor a
      sign-up writes it anew: no session resolves to it, and no later step stores a delegation from or to it or a run for it. */
  lemma StoppedForGood(b: Behavior, i: nat, j: nat, agent: Id)
    requires b.IsRun() && i <= j < |b.ops| && Stopped(b.states[i].stores, agent) && NeverRevived(b, i, j + 1, agent)
    ensures Stopped(b.states[j + 1].stores, agent)
    ensures b.ReplyAt(j).Resolved? && b.ReplyAt(j).context.Ok? ==> b.ReplyAt(j).context.value.principal.id != agent
    ensures forall id <- b.states[j + 1].stores.delegations :: id !in b.states[j].stores.delegations ==>
              var d := b.states[j + 1].stores.delegations[id]; d.delegator != agent && d.delegate != agent
    ensures forall id <- b.states[j + 1].stores.runs :: id !in b.states[j].stores.runs ==>
              b.states[j + 1].stores.runs[id].agent != agent
  {
    hide Step, Stopped, Revives, Stops;
    StoppedExactly(b, i, j, agent);
    StoppedExactly(b, i, j + 1, agent);
    StoppedCannotAct(b, j, agent);
  }

  lemma ResolvesUsable(s: MeshState, op: Op, env: Env)
    ensures var r := Step(s, op, env).1;
            r.Resolved? && r.context.Ok? ==>
            && Unusable(r.context.value.principal).None?
            && exists id <- s.stores.principals :: s.stores.principals[id] == r.context.value.principal
  {
    hide Commit, AuthorizeCapability, AuthorizeRequest, AuthorizeRun, CreateRun, Delegate, Envelope, PolicyOf, Unusable,
         ActingDelegation, TenantOf;
  }

  lemma CreatedForUsable(s: Stores, n: nat, t: Id, agent: Id, request: RunRequest, revision: nat, env: Env)
    requires CreateRunCheck(s, n, t, agent, request, revision, env).Ok?
    ensures CreateRunCheck(s, n, t, agent, request, revision, env).value.agent == agent
    ensures agent in s.principals && Unusable(s.principals[agent]).None?
  {
    hide Unusable, RunDelegation, NarrowsParent, GeneratedRunId;
  }

  /** A revoked delegation is never valid again, at any time. */
  lemma RevokedForGood(b: Behavior, i: nat, j: nat, id: Id, now: int)
    requires b.IsRun() && i <= j < |b.states|
    requires id in b.states[i].stores.delegations && b.states[i].stores.delegations[id].revokedAt.Some?
    ensures id in b.states[j].stores.delegations && !b.states[j].stores.delegations[id].IsValidAt(now)
  {
    hide Step;
    StatesGrow(b, i, j);
    assert DelegationGrows(b.states[i].stores.delegations[id], b.states[j].stores.delegations[id]);
  }

  /** A cancelled run is denied at every later step. */
  lemma CancelledForGood(b: Behavior, i: nat, j: nat)
    requires b.IsRun() && i <= j < |b.ops| && b.ops[j].AuthorizeRunOp?
    requires var id := b.ops[j].runId; id in b.states[i].stores.runs && b.states[i].stores.runs[id].status == RunCancelled
    ensures b.ReplyAt(j).Decided? && b.ReplyAt(j).decision.Deny?
  {
    hide Step;
    StatesGrow(b, i, j);
    assert RunGrows(b.states[i].stores.runs[b.ops[j].runId], b.states[j].stores.runs[b.ops[j].runId]);
    RunDenialDenies(b.states[j], b.ops[j], b.envs[j]);
  }

  // ----- What an acknowledged operation brings about --------------------------------------------------

  /** An acknowledged revocation takes effect at once and for good, and touches no other delegation and no run. */
  lemma RevokingTakesEffect(b: Behavior, i: nat, j: nat, now: int)
    requires b.IsRun() && i < j < |b.states| && b.ops[i].RevokeOp?
    requires b.ReplyAt(i).Acknowledged? && b.ReplyAt(i).outcome.Ok?
    ensures var id := b.ops[i].delegationId;
            && id in b.states[j].stores.delegations && !b.states[j].stores.delegations[id].IsValidAt(now)
            && b.states[i + 1].stores.runs == b.states[i].stores.runs
            && b.states[i + 1].stores.delegations - {id} == b.states[i].stores.delegations - {id}
  {
    RevokedForGood(b, i + 1, j, b.ops[i].delegationId, now);
  }

  /** After an acknowledged cancellation every request under the run is denied. */
  lemma CancellingTakesEffect(b: Behavior, i: nat, j: nat)
    requires b.IsRun() && i < j < |b.ops| && b.ops[i].CancelRunOp? && b.ops[j].AuthorizeRunOp?
    requires b.ops[j].runId == b.ops[i].runId && b.ReplyAt(i).RunReply? && b.ReplyAt(i).run.Ok?
    ensures b.ReplyAt(j).Decided? && b.ReplyAt(j).decision.Deny?
  {
    CancelledForGood(b, i + 1, j);
  }

  /** After an acknowledged suspension, revocation or retirement no session resolves to the agent unless the
      control route or a sign-up writes it anew. */
  lemma StoppingTakesEffect(b: Behavior, i: nat, j: nat)
    requires b.IsRun() && i < j < |b.ops| && b.ops[i].SetAgentStateOp?
    requires b.ReplyAt(i).Acknowledged? && b.ReplyAt(i).outcome.Ok? && NeverRevived(b, i + 1, j + 1, b.ops[i].agent)
    ensures Stopped(b.states[j].stores, b.ops[i].agent)
    ensures b.ReplyAt(j).Resolved? && b.ReplyAt(j).context.Ok? ==>
            b.ReplyAt(j).context.value.principal.id != b.ops[i].agent
  {
    hide Step, Revives;
    var agent := b.ops[i].agent;
    AcknowledgedStops(b.states[i], b.ops[i], b.envs[i]);
    StepStops(b.states[i], b.ops[i], b.envs[i], agent);
    StoppedExactly(b, i + 1, j, agent);
    StoppedForGood(b, i + 1, j, agent);
  }

  lemma AcknowledgedStops(s: MeshState, op: Op, env: Env)
    requires op.SetAgentStateOp?
    ensures var r := Step(s, op, env).1;
            r.Acknowledged? && r.outcome.Ok? ==> Stops(s, op, op.agent) && op.agent in s.stores.principals
  {
  }
}
