/** Policies from the source text to the decision: which sources declare which policies, and what the lines of a policy
    block ask of a request. */
module PolicySources {
  import opened Prelude
  import opened Sorting
  import opened Contract
  import opened Evaluator
  import opened Parsing
  import opened Renderings
  import opened BlockExtraction
  import opened Declaration
  import opened PolicyParsing
  import opened PolicyCompiler

  // ----- What the lines of a block ask --------------------------------------------------------------

  /** The principal has one of the values of the claim line. */
  predicate LineMet(e: Entry, f: Facts) {
    exists v <- ClaimValues(e.value) :: f.Claim(e.key) == Some(ClaimValue.Enum(v))
  }

  /** The request is for the capability, for the last action named or the default one, on a resource of the last type
      named; if any line binds the tenant the resource is the principal's tenant's own; and every claim line is met. */
  predicate LinesSatisfied(capability: string, fields: seq<Entry>, request: AuthorizationRequest, f: Facts) {
    var action, resource := LastText(fields, "action", DefaultAction(capability)), LastText(fields, "resource", None);
    && capability == request.capability
    && (action.Some? ==> action.value == request.action)
    && (resource.Some? ==> request.resource.Some? && request.resource.value.resourceType == resource.value)
    && (SaysTenant(fields) ==> f.resource.Some? && f.resource.value.tenantId == Some(f.principal.tenantId))
    && forall e <- fields :: !Reserved(e.key) ==> LineMet(e, f)
  }

  lemma {:induction false} ClaimsInExactly(fields: seq<Entry>, c: PolicyClaimCondition)
    ensures c in ClaimsIn(fields) <==>
            exists e <- fields :: !Reserved(e.key) && c == PolicyClaimCondition(e.key, ClaimValues(e.value))
  {
    hide Reserved, ClaimValues;
    if fields != [] {
      var init, last := fields[..|fields| - 1], fields[|fields| - 1];
      assert fields == init + [last];
      ClaimsInExactly(init, c);
      assert forall e :: e in fields <==> e in init || e == last;
      if e :| e in init && !Reserved(e.key) && c == PolicyClaimCondition(e.key, ClaimValues(e.value)) {
        assert e in fields;
      }
    }
  }

  /** A declared policy asks what its lines ask, in whatever order they stand. */
  lemma LinesMean(capability: string, fields: seq<Entry>, request: AuthorizationRequest, f: Facts)
    requires PolicyFrom(capability, fields).Ok?
    ensures Satisfied(PolicyFrom(capability, fields).value, request, f) <==> LinesSatisfied(capability, fields, request, f)
  {
    hide PolicyFrom, LastText, ClaimsIn, Sort, Reserved, ClaimValues, DefaultAction, SaysTenant;
    PolicyFromExactly(capability, fields);
    ConditionOrder();
    SortSorts(ClaimsIn(fields), byCondition);
    var claims := Sort(ClaimsIn(fields), byCondition);
    forall c ensures c in claims <==> exists e <- fields :: !Reserved(e.key) && c == PolicyClaimCondition(e.key, ClaimValues(e.value)) {
      assert c in claims <==> c in multiset(ClaimsIn(fields));
      ClaimsInExactly(fields, c);
    }
    if forall c <- claims :: ClaimMet(c, f) {
      forall e | e in fields && !Reserved(e.key) ensures LineMet(e, f) {
        assert PolicyClaimCondition(e.key, ClaimValues(e.value)) in claims;
      }
    }
    if forall e <- fields :: !Reserved(e.key) ==> LineMet(e, f) {
      forall c | c in claims ensures ClaimMet(c, f) {
        var e :| e in fields && !Reserved(e.key) && c == PolicyClaimCondition(e.key, ClaimValues(e.value));
        assert LineMet(e, f);
      }
    }
  }

  // ----- The policies of a source -------------------------------------------------------------------

  datatype SourceError = Unread(block: BlockError) | DuplicateField | Unfit(policy: PolicyError)

  predicate DistinctKeys(entries: seq<Entry>) {
    forall i, j :: 0 <= i < j < |entries| ==> entries[i].key != entries[j].key
  }

  /** The policies a source declares, as far as its `policy` field is concerned. */
  function DeclaredPolicies(src: string): Result<seq<PolicyDef>, SourceError> {
    match ReadBlock(src)
    case Err(e) => Err(Unread(e))
    case Ok(tree) =>
      if !DistinctKeys(tree) then Err(DuplicateField)
      else match IndexWhere(tree, (e: Entry) => e.key == "policy")
        case None => Ok([])
        case Some(i) =>
          match PoliciesFrom(tree[i].value)
          case Err(e) => Err(Unfit(e))
          case Ok(policies) => Ok(policies)
  }

  lemma {:induction false} EachFromMeans(entries: seq<Entry>)
    requires EachFrom(entries).Ok?
    ensures var policies := EachFrom(entries).value;
            && |policies| == |entries|
            && forall i :: 0 <= i < |entries| ==>
                 entries[i].value.Block? && PolicyFrom(entries[i].key, entries[i].value.entries) == Ok(policies[i])
  {
    hide PolicyFrom;
    if entries != [] {
      EachFromMeans(entries[..|entries| - 1]);
    }
  }

  lemma KeysAreCapabilities(entries: seq<Entry>, policies: seq<PolicyDef>)
    requires EachFrom(entries) == Ok(policies)
    ensures |policies| == |entries| && forall i :: 0 <= i < |entries| ==> policies[i].capability == entries[i].key
  {
    hide PolicyFrom, EachFrom;
    EachFromMeans(entries);
    forall i | 0 <= i < |entries| ensures policies[i].capability == entries[i].key {
      PolicyFromExactly(entries[i].key, entries[i].value.entries);
    }
  }

  /** From text to decision: when a source is read to a tree with policy blocks for different capabilities, a rule of the
      compiled policy grants a request exactly when the early checks pass and the lines of some block are satisfied. */
  lemma GrantedFromText(src: string, tree: seq<Entry>, k: nat, principal: Principal, tenant: TenantContext,
                        delegation: Option<Delegation>, request: AuthorizationRequest,
                        attributes: Option<ResourceAttributes>, now: int, clock: Option<int>)
    requires ReadBlock(src) == Ok(tree) && k < |tree| && tree[k].key == "policy" && tree[k].value.Block?
    requires DeclaredPolicies(src).Ok? && DistinctKeys(tree[k].value.entries) && tree[k].value.entries != []
    ensures var (policy, f) := (CompilePolicy(DeclaredPolicies(src).value, tenant), Facts(principal, attributes, clock));
            var d := RequestDecision(policy, Some(principal), Some(tenant), delegation, request, attributes, now, clock);
            policy.Some? &&
            (d.Allow? && d.grant.authority == ByClaim <==>
              && EarlyDenial(policy.value, principal, tenant, request, attributes).None?
              && exists e <- tree[k].value.entries :: e.value.Block? && LinesSatisfied(e.key, e.value.entries, request, f))
  {
    hide ReadBlock, PolicyFrom, EachFrom, RequestDecision, Satisfied, LinesSatisfied, EarlyDenial;
    var entries, policies, f := tree[k].value.entries, DeclaredPolicies(src).value, Facts(principal, attributes, clock);
    assert IndexWhere(tree, (e: Entry) => e.key == "policy") == Some(k);
    assert EachFrom(entries) == Ok(policies);
    KeysAreCapabilities(entries, policies);
    CompilationPreservesMeaning(policies, principal, tenant, delegation, request, attributes, now, clock);
    SomeBlock(entries, policies, request, f);
  }

  lemma SomeBlock(entries: seq<Entry>, policies: seq<PolicyDef>, request: AuthorizationRequest, f: Facts)
    requires EachFrom(entries) == Ok(policies)
    ensures (exists p <- policies :: Satisfied(p, request, f)) <==>
            exists e <- entries :: e.value.Block? && LinesSatisfied(e.key, e.value.entries, request, f)
  {
    hide PolicyFrom, EachFrom, Satisfied, LinesSatisfied;
    EachFromMeans(entries);
    forall i | 0 <= i < |entries|
      ensures Satisfied(policies[i], request, f) <==> LinesSatisfied(entries[i].key, entries[i].value.entries, request, f)
    {
      LinesMean(entries[i].key, entries[i].value.entries, request, f);
    }
    if p :| p in policies && Satisfied(p, request, f) {
      var i :| 0 <= i < |policies| && policies[i] == p;
      assert entries[i] in entries;
    }
    if e :| e in entries && e.value.Block? && LinesSatisfied(e.key, e.value.entries, request, f) {
      var i :| 0 <= i < |entries| && entries[i] == e;
      assert policies[i] in policies;
    }
  }

  // ----- Every list of declarable policies has a source -----------------------------------------------

  /** The names are identifiers, and no text holds a quote, a brace or the mark. */
  predicate Writable(p: PolicyDef) {
    && IsIdent(p.capability)
    && (p.resource.Some? ==> PlainText(p.resource.value)) && (p.action.Some? ==> PlainText(p.action.value))
    && forall c <- p.claims :: IsIdent(c.claim) && forall v <- c.values :: PlainText(v)
  }

  function BlocksOf(policies: seq<PolicyDef>): seq<Entry> {
    seq(|policies|, i requires 0 <= i < |policies| => Entry(policies[i].capability, Block(FieldsOf(policies[i]))))
  }

  lemma {:induction false} PlainTreeJoins(a: seq<Entry>, b: seq<Entry>)
    requires PlainTree(a) && PlainTree(b)
    ensures PlainTree(a + b)
  {
    if a == [] {
      assert a + b == b;
    } else {
      PlainTreeJoins(a[1..], b);
      assert (a + b)[1..] == a[1..] + b;
    }
  }

  lemma OneIsPlain(e: Entry)
    requires IsIdent(e.key) && PlainValue(e.value)
    ensures PlainTree([e])
  {
    assert [e][1..] == [];
  }

  lemma {:induction false} ClaimFieldsArePlain(claims: seq<PolicyClaimCondition>)
    requires forall c <- claims :: IsIdent(c.claim) && forall v <- c.values :: PlainText(v)
    ensures PlainTree(ClaimFields(claims))
  {
    if claims != [] {
      ClaimFieldsArePlain(claims[1..]);
      assert claims[0] in claims;
      assert ClaimFields(claims)[1..] == ClaimFields(claims[1..]);
    }
  }

  lemma FieldsArePlain(p: PolicyDef)
    requires Writable(p)
    ensures PlainTree(FieldsOf(p))
  {
    hide PlainText, IsIdent, PlainTree;
    assert IsIdent("tenant") && IsIdent("resource") && IsIdent("action") by { FieldNamesAreIdents(); }
    assert PlainText("current") by { CurrentIsPlain(); }
    var tenant := if p.tenantCurrent then [Entry("tenant", Scalar("current"))] else [];
    var resource := if p.resource.Some? then [Entry("resource", Scalar(p.resource.value))] else [];
    var action := if p.action.Some? then [Entry("action", Scalar(p.action.value))] else [];
    NoneIsPlain();
    OneIsPlain(Entry("tenant", Scalar("current")));
    if p.resource.Some? {
      OneIsPlain(resource[0]);
    }
    if p.action.Some? {
      OneIsPlain(action[0]);
    }
    ClaimFieldsArePlain(p.claims);
    PlainTreeJoins(tenant, resource);
    PlainTreeJoins(tenant + resource, action);
    PlainTreeJoins(tenant + resource + action, ClaimFields(p.claims));
  }

  lemma NoneIsPlain()
    ensures PlainTree([])
  {
  }

  lemma FieldNamesAreIdents()
    ensures IsIdent("tenant") && IsIdent("resource") && IsIdent("action") && IsIdent("policy")
  {
  }

  lemma CurrentIsPlain()
    ensures PlainText("current")
  {
  }

  lemma {:induction false} BlocksArePlain(policies: seq<PolicyDef>)
    requires forall p <- policies :: Writable(p)
    ensures PlainTree(BlocksOf(policies))
  {
    hide FieldsOf;
    if policies != [] {
      BlocksArePlain(policies[1..]);
      assert policies[0] in policies;
      FieldsArePlain(policies[0]);
      assert BlocksOf(policies)[1..] == BlocksOf(policies[1..]);
    }
  }

  lemma {:induction false} BlocksGiveBack(policies: seq<PolicyDef>)
    requires forall p <- policies :: Declarable(p)
    ensures EachFrom(BlocksOf(policies)) == Ok(policies)
  {
    hide PolicyFrom, FieldsOf, Declarable;
    if policies != [] {
      var init, last := policies[..|policies| - 1], policies[|policies| - 1];
      assert policies == init + [last];
      BlocksGiveBack(init);
      FieldsGiveBack(last);
      assert BlocksOf(policies)[..|policies| - 1] == BlocksOf(init);
    }
  }

  /** Every list of declarable policies whose names and texts can be written is what some source declares. */
  lemma EveryPolicyListHasASource(policies: seq<PolicyDef>) returns (src: string)
    requires forall p <- policies :: Declarable(p) && Writable(p)
    ensures DeclaredPolicies(src) == Ok(policies)
  {
    hide Declarable, Writable, EachFrom, PlainTree, BlocksOf, ReadBlock;
    BlocksArePlain(policies);
    BlocksGiveBack(policies);
    var entry := Entry("policy", Block(BlocksOf(policies)));
    FieldNamesAreIdents();
    OneIsPlain(entry);
    src := EveryPlainTreeHasASource([entry]);
    assert IndexWhere([entry], (e: Entry) => e.key == "policy") == Some(0);
  }
}
