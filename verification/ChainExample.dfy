/** When the recorded chain of a delegation carries the delegated capability, and a run in which it does not. */
module ChainExample {
  import opened Prelude
  import opened Text
  import opened Contract
  import opened Evaluator
  import opened MeshModel
  import opened MeshRuns
  import opened MeshSafety

  /** Every delegation on the chain carries the delegation's first capability. */
  ghost predicate ChainCarries(s: Stores, d: Delegation) {
    && d.capabilities != []
    && forall x <- d.chain :: x in s.delegations && d.capabilities[0] in s.delegations[x].capabilities
  }

  /** The chain recorded for an agent carries the capability exactly when the chain of the delegation it is
      drawn from does. Nothing makes the latter so: that chain was recorded for another first capability. */
  lemma ChainCarriesExactly(config: Config, s: Stores, t: Id, request: DelegationRequest, listing: seq<Delegation>, env: Env)
    requires WellFormed(s) && DelegateCheck(config, s, t, request, listing, env).Ok?
    requires t in s.tenants ==> Lists(listing, s, s.tenants[t].tenantId, request.delegator)
    requires IsAgent(s, request.delegator)
    ensures Source(listing, request.capabilities[0], env.now).Some?
    ensures ChainCarries(s, DelegateCheck(config, s, t, request, listing, env).value) <==>
            var source := listing[Source(listing, request.capabilities[0], env.now).value];
            forall x <- source.chain :: request.capabilities[0] in s.delegations[x].capabilities
  {
    hide DelegateCheck, ChainOk, RunOk, Unusable;
    DelegateCheckMeans(config, s, t, request, listing, env);
    NewDelegationOk(config, s, t, request, listing, env);
    var d := DelegateCheck(config, s, t, request, listing, env).value;
    var source := listing[Source(listing, request.capabilities[0], env.now).value];
    assert source in listing;
    StoredChainOk(s, source.id);
    SourceChainStored(s, source.id);
    assert d.chain == source.chain + [source.id];
    assert forall x :: x in d.chain <==> x in source.chain || x == source.id;
  }

  lemma SourceChainStored(s: Stores, id: Id)
    requires WellFormed(s) && id in s.delegations
    ensures forall x <- s.delegations[id].chain :: x in s.delegations
  {
  }

  /** Every delegation on the line that leads to this one lists a single capability. */
  ghost predicate SingleOnLine(s: Stores, d: Delegation) {
    forall x <- d.chain + [d.id] :: x in s.delegations && |s.delegations[x].capabilities| == 1
  }

  lemma {:induction false} SingleLineCarries(s: Stores, id: Id, c: Capability, k: nat)
    requires WellFormed(s) && id in s.delegations && c in s.delegations[id].capabilities
    requires SingleOnLine(s, s.delegations[id]) && k <= |s.delegations[id].chain|
    ensures var x := (s.delegations[id].chain + [id])[k]; x in s.delegations && c in s.delegations[x].capabilities
    decreases |s.delegations[id].chain| - k
  {
    hide WellFormed, ChainOk;
    StoredChainOk(s, id);
    var line := s.delegations[id].chain + [id];
    assert line[k] in line;
    if k < |line| - 1 {
      SingleLineCarries(s, id, c, k + 1);
      ChainIsALine(s, id, k);
      assert line[k + 1] in line;
    }
  }

  /** A guard that looks at the stored line alone: when every delegation on the line drawn from lists a single
      capability, the recorded chain carries the delegated one. */
  lemma SingleCapabilitiesCarry(config: Config, s: Stores, t: Id, request: DelegationRequest, listing: seq<Delegation>, env: Env)
    requires WellFormed(s) && DelegateCheck(config, s, t, request, listing, env).Ok?
    requires t in s.tenants ==> Lists(listing, s, s.tenants[t].tenantId, request.delegator)
    requires IsAgent(s, request.delegator) && Source(listing, request.capabilities[0], env.now).Some?
    requires SingleOnLine(s, listing[Source(listing, request.capabilities[0], env.now).value])
    ensures ChainCarries(s, DelegateCheck(config, s, t, request, listing, env).value)
  {
    hide DelegateCheck, ChainOk, RunOk, WellFormed, SingleOnLine;
    DelegateCheckMeans(config, s, t, request, listing, env);
    ChainCarriesExactly(config, s, t, request, listing, env);
    var c, source := request.capabilities[0], listing[Source(listing, request.capabilities[0], env.now).value];
    assert source in listing && source.id in s.delegations && s.delegations[source.id] == source;
    StoredChainOk(s, source.id);
    forall x | x in source.chain ensures x in s.delegations && c in s.delegations[x].capabilities {
      var k :| 0 <= k < |source.chain| && source.chain[k] == x;
      SingleLineCarries(s, source.id, c, k);
      assert (source.chain + [source.id])[k] == x;
    }
  }

  // ----- Accepting a delegation ---------------------------------------------------------------------

  lemma {:induction false} ScanSucceeds(kind: PrincipalKind, held: seq<GrantedCapability>, listing: seq<Delegation>,
                                        request: DelegationRequest, now: int, n: nat)
    requires n <= |request.capabilities|
    requires forall k :: 0 <= k < n ==> GrantFor(held, request.capabilities[k]).Some?
    requires kind == Agent ==> forall k :: 0 <= k < n ==> DrawsOn(listing, request.capabilities[k], request.scope, now)
    ensures Scan(kind, held, listing, request, now, n).Ok?
  {
    hide GrantFor, Carries;
    if n > 0 {
      ScanSucceeds(kind, held, listing, request, now, n - 1);
    }
  }

  /** What a delegation request must meet, stated as a caller sees it. */
  ghost predicate Acceptable(config: Config, s: Stores, t: Id, request: DelegationRequest, listing: seq<Delegation>, env: Env) {
    && config.agents && !IsBlank(t) && t in s.tenants
    && request.capabilities != [] && !ExpiresTooEarly(request, env.now)
    && request.delegator != request.delegate && request.id !in s.delegations
    && PrincipalOf(s, s.tenants[t], request.delegator).Ok? && PrincipalOf(s, s.tenants[t], request.delegate).Ok?
    && s.principals[request.delegate].kind != Human && Unusable(s.principals[request.delegate]).None?
    && (forall c <- request.capabilities :: Held(config, s, s.tenants[t], request.delegator, listing, c, env))
    && (IsAgent(s, request.delegator) ==> forall c <- request.capabilities :: DrawsOn(listing, c, request.scope, env.now))
  }

  /** A delegation is accepted exactly when it is acceptable: every capability held, and for an agent also
      drawn from a delegation whose scope covers the new one. */
  lemma AcceptedExactly(config: Config, s: Stores, t: Id, request: DelegationRequest, listing: seq<Delegation>, env: Env)
    ensures DelegateCheck(config, s, t, request, listing, env).Ok? <==> Acceptable(config, s, t, request, listing, env)
  {
    hide Scan, GrantFor, DrawsOn, Source, RuleGrants, AddDelegations, ExpiresTooEarly, IsBlank, ExtendsSource;
    if DelegateCheck(config, s, t, request, listing, env).Ok? {
      DelegateCheckMeans(config, s, t, request, listing, env);
    }
    if Acceptable(config, s, t, request, listing, env) {
      var tenant := s.tenants[t];
      assert request.capabilities[0] in request.capabilities;
      var held := Envelope(PolicyOf(config, s, tenant).value, s.principals[request.delegator], tenant, listing, env.now, env.clock);
      forall k | 0 <= k < |request.capabilities|
        ensures GrantFor(held.value, request.capabilities[k]).Some?
        ensures IsAgent(s, request.delegator) ==> DrawsOn(listing, request.capabilities[k], request.scope, env.now)
      {
        assert Held(config, s, tenant, request.delegator, listing, request.capabilities[k], env);
      }
      ScanSucceeds(s.principals[request.delegator].kind, held.value, listing, request, env.now, |request.capabilities|);
    }
  }

  // ----- The run ------------------------------------------------------------------------------------

  const ANYTHING := ResourceScope(None, None, map[])
  const POLICY := Policy("p", [Rule("a", Always, None, None, AllowEffect), Rule("b", Always, None, None, AllowEffect)])
  const TENANT := TenantContext("t", "p")
  const NOW := Env(0, None, true)

  function Person(id: Id, kind: PrincipalKind): Principal {
    Principal(id, kind, "t", map[], if kind == Agent then Some(Active) else None)
  }

  const PEOPLE: map<Id, Principal> :=
    map["h" := Person("h", Human), "x" := Person("x", Agent), "y" := Person("y", Agent), "z" := Person("z", Agent)]

  function StoresWith(delegations: map<Id, Delegation>): Stores {
    Stores(map["t" := TENANT], map["p" := POLICY], PEOPLE, map[], map[], delegations, map[])
  }

  function Asks(id: Id, delegator: Id, delegate: Id, capabilities: seq<Capability>): DelegationRequest {
    DelegationRequest(id, delegator, delegate, capabilities, ANYTHING, 0, None)
  }

  function Makes(id: Id, delegator: Id, delegate: Id, capabilities: seq<Capability>, chain: seq<Id>): Delegation {
    Delegation(id, delegator, delegate, "t", capabilities, ANYTHING, 0, None, None, chain)
  }

  const CONFIG := Config(true, [])

  lemma HeldByRule(delegations: map<Id, Delegation>, holder: Id, listing: seq<Delegation>, c: Capability)
    requires holder in PEOPLE && c in {"a", "b"}
    ensures Held(CONFIG, StoresWith(delegations), TENANT, holder, listing, c, NOW)
  {
    hide Envelope;
    var principal := PEOPLE[holder];
    var i := if c == "a" then 0 else 1;
    assert POLICY.rules[i].capability == c && Holds(POLICY.rules[i].condition, Facts(principal, None, None));
    assert GrantingRule(POLICY, principal, c, None).Some?;
    HeldGrantIs(POLICY, principal, TENANT, listing, c, 0, None);
  }

  /** One delegation of the run. */
  lemma Accepts(delegations: map<Id, Delegation>, request: DelegationRequest, listing: seq<Delegation>, d: Delegation)
    requires request == Asks(d.id, d.delegator, d.delegate, d.capabilities)
    requires d == Makes(d.id, d.delegator, d.delegate, d.capabilities, d.chain)
    requires d.delegator in PEOPLE && d.delegate in {"x", "y", "z"} && d.delegator != d.delegate
    requires d.id !in delegations && d.capabilities != [] && forall c <- d.capabilities :: c in {"a", "b"}
    requires if d.delegator == "h" then d.chain == []
             else (forall c <- d.capabilities :: DrawsOn(listing, c, ANYTHING, 0))
                  && ExtendsSource(d.chain, listing, d.capabilities[0], 0)
    ensures DelegateCheck(CONFIG, StoresWith(delegations), "t", request, listing, NOW) == Ok(d)
  {
    hide DelegateCheck, Held, DrawsOn;
    var s := StoresWith(delegations);
    forall c | c in request.capabilities ensures Held(CONFIG, s, TENANT, request.delegator, listing, c, NOW) {
      HeldByRule(delegations, request.delegator, listing, c);
    }
    assert 't' in "t" && !IsWhitespace('t');
    assert PrincipalOf(s, TENANT, request.delegator).Ok? && PrincipalOf(s, TENANT, request.delegate).Ok?;
    AcceptedExactly(CONFIG, s, "t", request, listing, NOW);
    DelegateCheckMeans(CONFIG, s, "t", request, listing, NOW);
  }

  /** The step that stores an accepted delegation. */
  lemma AcceptedIsStored(delegations: map<Id, Delegation>, j: Journal, request: DelegationRequest, listing: seq<Delegation>, d: Delegation)
    requires DelegateCheck(CONFIG, StoresWith(delegations), "t", request, listing, NOW) == Ok(d)
    ensures var t := Step(MeshState(CONFIG, StoresWith(delegations), j, 0), DelegateOp("t", request, listing), NOW).0;
            t == MeshState(CONFIG, StoresWith(delegations[d.id := d]), t.journal, 0)
  {
    hide DelegateCheck, Append;
  }

  const D1 := Makes("d1", "h", "x", ["a"], [])
  const D2 := Makes("d2", "h", "x", ["b"], [])
  const D3 := Makes("d3", "x", "y", ["a", "b"], ["d1"])
  const D4 := Makes("d4", "y", "z", ["b"], ["d1", "d3"])

  const M1: map<Id, Delegation> := map["d1" := D1]
  const M2: map<Id, Delegation> := map["d1" := D1, "d2" := D2]
  const M3: map<Id, Delegation> := map["d1" := D1, "d2" := D2, "d3" := D3]
  const M4: map<Id, Delegation> := map["d1" := D1, "d2" := D2, "d3" := D3, "d4" := D4]

  function Request(d: Delegation): DelegationRequest {
    Asks(d.id, d.delegator, d.delegate, d.capabilities)
  }

  lemma AcceptsThird()
    ensures DelegateCheck(CONFIG, StoresWith(M2), "t", Request(D3), [D1, D2], NOW) == Ok(D3)
  {
    hide DelegateCheck;
    var listing := [D1, D2];
    assert Carries(listing[0], "a", 0) && !Carries(listing[0], "b", 0) && Carries(listing[1], "b", 0);
    assert Source(listing, "a", 0) == Some(0) && Source(listing, "b", 0) == Some(1);
    assert DrawsOn(listing, "a", ANYTHING, 0) && DrawsOn(listing, "b", ANYTHING, 0);
    Accepts(M2, Request(D3), listing, D3);
  }

  lemma AcceptsFourth()
    ensures DelegateCheck(CONFIG, StoresWith(M3), "t", Request(D4), [D3], NOW) == Ok(D4)
  {
    hide DelegateCheck;
    var listing := [D3];
    assert Carries(listing[0], "b", 0);
    assert Source(listing, "b", 0) == Some(0);
    assert D4.chain == ["d1"] + ["d3"];
    Accepts(M3, Request(D4), listing, D4);
  }

  lemma Listings()
    ensures Lists([], StoresWith(map[]), "t", "h") && Lists([], StoresWith(M1), "t", "h")
    ensures Lists([D1, D2], StoresWith(M2), "t", "x") && Lists([D3], StoresWith(M3), "t", "y")
  {
  }

  /** A human delegates `a` and `b` separately to agent x; x re-delegates both together to y; y re-delegates
      `b` to z. The last delegation records a chain through the delegation of `a`, which does not carry `b`. */
  lemma RecordedChainCanMissTheCapability() returns (b: Behavior)
    ensures b.IsRun() && |b.states| == 5
    ensures var s := b.states[4].stores;
            && "d4" in s.delegations && s.delegations["d4"].capabilities == ["b"]
            && !ChainCarries(s, s.delegations["d4"])
  {
    hide Step, DelegateCheck, Lists;
    var ops := [DelegateOp("t", Request(D1), []), DelegateOp("t", Request(D2), []),
                DelegateOp("t", Request(D3), [D1, D2]), DelegateOp("t", Request(D4), [D3])];
    var s0 := MeshState(CONFIG, StoresWith(map[]), Journal([], 0, []), 0);
    Accepts(map[], Request(D1), [], D1);
    AcceptedIsStored(map[], s0.journal, Request(D1), [], D1);
    var s1 := Step(s0, ops[0], NOW).0;
    Accepts(M1, Request(D2), [], D2);
    AcceptedIsStored(M1, s1.journal, Request(D2), [], D2);
    var s2 := Step(s1, ops[1], NOW).0;
    AcceptsThird();
    AcceptedIsStored(M2, s2.journal, Request(D3), [D1, D2], D3);
    var s3 := Step(s2, ops[2], NOW).0;
    AcceptsFourth();
    AcceptedIsStored(M3, s3.journal, Request(D4), [D3], D4);
    var s4 := Step(s3, ops[3], NOW).0;
    assert M1 == map[]["d1" := D1] && M2 == M1["d2" := D2] && M3 == M2["d3" := D3] && M4 == M3["d4" := D4];
    Listings();
    b := Behavior([s0, s1, s2, s3, s4], ops, [NOW, NOW, NOW, NOW]);
    assert s4.stores.delegations == M4 && "d1" in D4.chain && M4["d1"] == D1;
  }
}
