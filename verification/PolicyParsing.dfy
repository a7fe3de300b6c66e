/** Declared policies read from the entry tree of an auth block: the default action, the fields, and the order in which
    claim conditions are kept. */
module PolicyParsing {
  import opened Prelude
  import opened Sorting
  import opened Parsing
  import opened Declaration

  datatype PolicyError =
    | ExpectedBlock | ExpectedPolicyBlock(capability: string) | ExpectedValue(key: string) | TenantNotCurrent
    | BlockClaim(claim: string)

  // ----- The order of claim conditions --------------------------------------------------------------

  predicate ListLe(a: seq<string>, b: seq<string>) {
    a == [] || (b != [] && if a[0] == b[0] then ListLe(a[1..], b[1..]) else TextLe(a[0], b[0]))
  }

  const byCondition := (a: PolicyClaimCondition, b: PolicyClaimCondition) =>
    if a.claim == b.claim then ListLe(a.values, b.values) else TextLe(a.claim, b.claim)

  lemma {:induction false} ListTotal(a: seq<string>, b: seq<string>)
    ensures ListLe(a, b) || ListLe(b, a)
    ensures ListLe(a, b) && ListLe(b, a) ==> a == b
  {
    if a != [] && b != [] {
      TextTotal(a[0], b[0]);
      if a[0] == b[0] {
        ListTotal(a[1..], b[1..]);
        assert a == [a[0]] + a[1..] && b == [b[0]] + b[1..];
      }
    }
  }

  lemma {:induction false} ListTransitive(a: seq<string>, b: seq<string>, c: seq<string>)
    requires ListLe(a, b) && ListLe(b, c)
    ensures ListLe(a, c)
  {
    if a != [] {
      if a[0] == b[0] == c[0] {
        ListTransitive(a[1..], b[1..], c[1..]);
      } else {
        TextTotal(a[0], b[0]);
        TextTotal(b[0], c[0]);
        TextTotal(a[0], c[0]);
        if TextLe(a[0], b[0]) && TextLe(b[0], c[0]) {
          TextTransitive(a[0], b[0], c[0]);
        }
      }
    }
  }

  lemma ConditionTransitive(a: PolicyClaimCondition, b: PolicyClaimCondition, c: PolicyClaimCondition)
    requires byCondition(a, b) && byCondition(b, c)
    ensures byCondition(a, c)
  {
    if a.claim == b.claim == c.claim {
      ListTransitive(a.values, b.values, c.values);
    } else {
      TextTotal(a.claim, b.claim);
      TextTotal(b.claim, c.claim);
      if TextLe(a.claim, b.claim) && TextLe(b.claim, c.claim) {
        TextTransitive(a.claim, b.claim, c.claim);
      }
    }
  }

  lemma ConditionOrder()
    ensures TotalPreorder(byCondition)
    ensures forall s :: Antisymmetric(s, byCondition)
  {
    forall x, y
      ensures byCondition(x, y) || byCondition(y, x)
      ensures byCondition(x, y) && byCondition(y, x) ==> x == y
    {
      TextTotal(x.claim, y.claim);
      ListTotal(x.values, y.values);
    }
    forall x, y, z | byCondition(x, y) && byCondition(y, z) ensures byCondition(x, z) {
      ConditionTransitive(x, y, z);
    }
  }

  // ----- What is read -------------------------------------------------------------------------------

  /** What follows the first dot of the capability. */
  function DefaultAction(capability: string): (r: Option<string>)
    ensures r.None? <==> '.' !in capability
    ensures r.Some? ==> exists subject :: capability == subject + "." + r.value && '.' !in subject
  {
    if capability == "" then None
    else if capability[0] == '.' then
      assert capability == "" + "." + capability[1..];
      Some(capability[1..])
    else
      var r := DefaultAction(capability[1..]);
      assert r.Some? ==>
          var subject :| capability[1..] == subject + "." + r.value && '.' !in subject;
          capability == ([capability[0]] + subject) + "." + r.value && '.' !in [capability[0]] + subject;
      r
  }

  function ExpectScalar(key: string, v: Value): Result<string, PolicyError> {
    if v.Scalar? then Ok(v.text) else Err(ExpectedValue(key))
  }

  function ClaimValues(v: Value): seq<string> {
    match v
    case Scalar(text) => [text]
    case ListOf(items) => items
    case EnumOf(items) => items
    case Block(_) => []
  }

  function AddField(p: PolicyDef, e: Entry): Result<PolicyDef, PolicyError> {
    if e.key == "tenant" then
      if !e.value.Scalar? then Err(ExpectedValue(e.key))
      else if e.value.text != "current" then Err(TenantNotCurrent)
      else Ok(p.(tenantCurrent := true))
    else if e.key == "resource" then
      if e.value.Scalar? then Ok(p.(resource := Some(e.value.text))) else Err(ExpectedValue(e.key))
    else if e.key == "action" then
      if e.value.Scalar? then Ok(p.(action := Some(e.value.text))) else Err(ExpectedValue(e.key))
    else if e.value.Block? then Err(BlockClaim(e.key))
    else Ok(p.(claims := p.claims + [PolicyClaimCondition(e.key, ClaimValues(e.value))]))
  }

  function AddFields(p: PolicyDef, fields: seq<Entry>): Result<PolicyDef, PolicyError> {
    if fields == [] then Ok(p)
    else match AddFields(p, fields[..|fields| - 1])
      case Err(e) => Err(e)
      case Ok(q) => AddField(q, fields[|fields| - 1])
  }

  function Undeclared(capability: string): PolicyDef {
    PolicyDef(capability, false, None, DefaultAction(capability), [])
  }

  function PolicyFrom(capability: string, fields: seq<Entry>): Result<PolicyDef, PolicyError> {
    match AddFields(Undeclared(capability), fields)
    case Err(e) => Err(e)
    case Ok(p) => Ok(p.(claims := Sort(p.claims, byCondition)))
  }

  function EachFrom(entries: seq<Entry>): Result<seq<PolicyDef>, PolicyError> {
    if entries == [] then Ok([])
    else match EachFrom(entries[..|entries| - 1])
      case Err(e) => Err(e)
      case Ok(policies) =>
        var last := entries[|entries| - 1];
        if !last.value.Block? then Err(ExpectedPolicyBlock(last.key))
        else match PolicyFrom(last.key, last.value.entries)
          case Err(e) => Err(e)
          case Ok(p) => Ok(policies + [p])
  }

  function PoliciesFrom(v: Value): Result<seq<PolicyDef>, PolicyError> {
    if v.Block? then EachFrom(v.entries) else Err(ExpectedBlock)
  }

  lemma {:induction false} FieldErrorIsFinal(p: PolicyDef, fields: seq<Entry>, n: nat)
    requires n <= |fields| && AddFields(p, fields[..n]).Err?
    ensures AddFields(p, fields) == AddFields(p, fields[..n])
    decreases |fields|
  {
    if n == |fields| {
      assert fields[..n] == fields;
    } else {
      var init := fields[..|fields| - 1];
      assert init[..n] == fields[..n];
      FieldErrorIsFinal(p, init, n);
    }
  }

  lemma {:induction false} PolicyErrorIsFinal(entries: seq<Entry>, n: nat)
    requires n <= |entries| && EachFrom(entries[..n]).Err?
    ensures EachFrom(entries) == EachFrom(entries[..n])
    decreases |entries|
  {
    if n == |entries| {
      assert entries[..n] == entries;
    } else {
      var init := entries[..|entries| - 1];
      assert init[..n] == entries[..n];
      PolicyErrorIsFinal(init, n);
    }
  }

  lemma NextTaken<T>(s: seq<T>, i: nat)
    requires i < |s|
    ensures s[..i + 1][..i] == s[..i] && s[..i + 1] != [] && |s[..i + 1]| == i + 1 && s[..i + 1][i] == s[i]
  {
  }

  method ReadPolicy(capability: string, fields: seq<Entry>) returns (r: Result<PolicyDef, PolicyError>)
    ensures r == PolicyFrom(capability, fields)
  {
    hide Sort, AddField;
    var policy := PolicyDef(capability, false, None, DefaultAction(capability), []);
    for i := 0 to |fields|
      invariant AddFields(Undeclared(capability), fields[..i]) == Ok(policy)
    {
      NextTaken(fields, i);
      var e := fields[i];
      ghost var added := AddFields(Undeclared(capability), fields[..i + 1]);
      assert added == AddField(policy, e);
      var changed := ReadField(policy, e);
      if changed.Err? {
        FieldErrorIsFinal(Undeclared(capability), fields, i + 1);
        return Err(changed.error);
      }
      policy := changed.value;
    }
    assert fields[..|fields|] == fields;
    r := Ok(policy.(claims := Sort(policy.claims, byCondition)));
  }

  method ReadField(policy: PolicyDef, e: Entry) returns (r: Result<PolicyDef, PolicyError>)
    ensures r == AddField(policy, e)
  {
    match e.key {
      case "tenant" =>
        var tenant := ExpectScalar(e.key, e.value);
        if tenant.Err? {
          return Err(tenant.error);
        }
        if tenant.value != "current" {
          return Err(TenantNotCurrent);
        }
        r := Ok(policy.(tenantCurrent := true));
      case "resource" =>
        var resource := ExpectScalar(e.key, e.value);
        if resource.Err? {
          return Err(resource.error);
        }
        r := Ok(policy.(resource := Some(resource.value)));
      case "action" =>
        var action := ExpectScalar(e.key, e.value);
        if action.Err? {
          return Err(action.error);
        }
        r := Ok(policy.(action := Some(action.value)));
      case claim =>
        var values;
        match e.value {
          case ListOf(items) => values := items;
          case EnumOf(items) => values := items;
          case Scalar(text) => values := [text];
          case Block(_) => return Err(BlockClaim(claim));
        }
        r := Ok(policy.(claims := policy.claims + [PolicyClaimCondition(claim, values)]));
    }
  }

  method ParsePolicies(v: Value) returns (r: Result<seq<PolicyDef>, PolicyError>)
    ensures r == PoliciesFrom(v)
  {
    hide PolicyFrom;
    if !v.Block? {
      return Err(ExpectedBlock);
    }
    var policies := [];
    for i := 0 to |v.entries|
      invariant EachFrom(v.entries[..i]) == Ok(policies)
    {
      NextTaken(v.entries, i);
      var e := v.entries[i];
      if !e.value.Block? {
        PolicyErrorIsFinal(v.entries, i + 1);
        return Err(ExpectedPolicyBlock(e.key));
      }
      var policy := ReadPolicy(e.key, e.value.entries);
      if policy.Err? {
        PolicyErrorIsFinal(v.entries, i + 1);
        return Err(policy.error);
      }
      policies := policies + [policy.value];
    }
    assert v.entries[..|v.entries|] == v.entries;
    r := Ok(policies);
  }

  // ----- The policy in closed form ------------------------------------------------------------------

  predicate Reserved(key: string) {
    key == "tenant" || key == "resource" || key == "action"
  }

  predicate FieldOk(e: Entry) {
    if e.key == "tenant" then e.value == Scalar("current")
    else if Reserved(e.key) then e.value.Scalar?
    else !e.value.Block?
  }

  /** The value of the last field of this name. */
  function LastText(fields: seq<Entry>, key: string, otherwise: Option<string>): Option<string> {
    if fields == [] then otherwise
    else
      var last := fields[|fields| - 1];
      if last.key == key && last.value.Scalar? then Some(last.value.text)
      else LastText(fields[..|fields| - 1], key, otherwise)
  }

  /** The conditions of all claim fields, as they stand. */
  function ClaimsIn(fields: seq<Entry>): seq<PolicyClaimCondition> {
    if fields == [] then []
    else
      var last := fields[|fields| - 1];
      ClaimsIn(fields[..|fields| - 1]) +
      if Reserved(last.key) then [] else [PolicyClaimCondition(last.key, ClaimValues(last.value))]
  }

  predicate SaysTenant(fields: seq<Entry>) {
    exists e <- fields :: e.key == "tenant"
  }

  /** What one field adds. */
  lemma FieldAdded(p: PolicyDef, e: Entry)
    ensures AddField(p, e).Ok? <==> FieldOk(e)
    ensures FieldOk(e) ==>
              AddField(p, e).value ==
              PolicyDef(p.capability, p.tenantCurrent || e.key == "tenant",
                        if e.key == "resource" && e.value.Scalar? then Some(e.value.text) else p.resource,
                        if e.key == "action" && e.value.Scalar? then Some(e.value.text) else p.action,
                        p.claims + if Reserved(e.key) then [] else [PolicyClaimCondition(e.key, ClaimValues(e.value))])
  {
    assert p.claims + [] == p.claims;
  }

  lemma {:induction false} FieldsAdded(p: PolicyDef, fields: seq<Entry>)
    ensures AddFields(p, fields).Ok? <==> forall e <- fields :: FieldOk(e)
    ensures AddFields(p, fields).Ok? ==>
              AddFields(p, fields).value ==
              PolicyDef(p.capability, p.tenantCurrent || SaysTenant(fields), LastText(fields, "resource", p.resource),
                        LastText(fields, "action", p.action), p.claims + ClaimsIn(fields))
  {
    hide AddField, FieldOk, Reserved, ClaimValues;
    if fields != [] {
      var init, last := fields[..|fields| - 1], fields[|fields| - 1];
      assert fields == init + [last];
      FieldsAdded(p, init);
      assert forall e :: e in fields <==> e in init || e == last;
      if AddFields(p, init).Ok? {
        FieldAdded(AddFields(p, init).value, last);
      }
      var more := if Reserved(last.key) then [] else [PolicyClaimCondition(last.key, ClaimValues(last.value))];
      assert p.claims + ClaimsIn(init) + more == p.claims + ClaimsIn(fields);
    }
  }

  /** A policy block is read exactly when each field is of its kind, and then the policy is tenant-bound if it says so
      anywhere, has the last resource and the last or the default action, and all its claim conditions in order. */
  lemma PolicyFromExactly(capability: string, fields: seq<Entry>)
    ensures PolicyFrom(capability, fields).Ok? <==> forall e <- fields :: FieldOk(e)
    ensures PolicyFrom(capability, fields).Ok? ==>
              PolicyFrom(capability, fields).value ==
              PolicyDef(capability, SaysTenant(fields), LastText(fields, "resource", None),
                        LastText(fields, "action", DefaultAction(capability)), Sort(ClaimsIn(fields), byCondition))
  {
    hide Sort, FieldOk, LastText, ClaimsIn, AddFields;
    FieldsAdded(Undeclared(capability), fields);
    assert [] + ClaimsIn(fields) == ClaimsIn(fields);
  }

  // ----- Refusals -----------------------------------------------------------------------------------

  /** What is wrong with a field. */
  function FieldRefusal(e: Entry): Option<PolicyError> {
    if e.key in {"tenant", "resource", "action"} && !e.value.Scalar? then Some(ExpectedValue(e.key))
    else if e.key == "tenant" && e.value.text != "current" then Some(TenantNotCurrent)
    else if e.key !in {"tenant", "resource", "action"} && e.value.Block? then Some(BlockClaim(e.key))
    else None
  }

  /** What is wrong with a policy: that it is no block, or the first thing wrong with its fields. */
  ghost predicate IsRefused(e: Entry, error: PolicyError) {
    if !e.value.Block? then error == ExpectedPolicyBlock(e.key) else FirstRefusal(e.value.entries, error)
  }

  ghost predicate FirstRefusal(fields: seq<Entry>, error: PolicyError) {
    exists i :: 0 <= i < |fields| && FieldRefusal(fields[i]) == Some(error)
                && forall j :: 0 <= j < i ==> FieldRefusal(fields[j]).None?
  }

  ghost predicate IsReadable(e: Entry) {
    e.value.Block? && forall field <- e.value.entries :: FieldRefusal(field).None?
  }

  lemma {:induction false} FieldsRefused(p: PolicyDef, fields: seq<Entry>)
    ensures AddFields(p, fields).Ok? ==> forall e <- fields :: FieldRefusal(e).None?
    ensures AddFields(p, fields).Err? ==> FirstRefusal(fields, AddFields(p, fields).error)
  {
    hide FieldRefusal, AddField;
    if fields != [] {
      var init, last := fields[..|fields| - 1], fields[|fields| - 1];
      assert fields == init + [last];
      FieldsRefused(p, init);
      if AddFields(p, init).Ok? {
        FieldRefused(AddFields(p, init).value, last);
        assert fields[|init|] == last && forall j :: 0 <= j < |init| ==> fields[j] in init;
      } else {
        var i :| 0 <= i < |init| && FieldRefusal(init[i]) == Some(AddFields(p, init).error)
                 && forall j :: 0 <= j < i ==> FieldRefusal(init[j]).None?;
        assert forall j :: 0 <= j <= i ==> fields[j] == init[j];
      }
    }
  }

  lemma FieldRefused(p: PolicyDef, e: Entry)
    ensures if FieldRefusal(e).Some? then AddField(p, e) == Err(FieldRefusal(e).value) else AddField(p, e).Ok?
  {
  }

  lemma PolicyRefused(capability: string, fields: seq<Entry>)
    ensures PolicyFrom(capability, fields).Err? ==> FirstRefusal(fields, PolicyFrom(capability, fields).error)
  {
    hide AddFields, Sort;
    FieldsRefused(Undeclared(capability), fields);
  }

  /** A policies block that is not read is refused for being no block, or for the first policy in it that something is wrong
      with. */
  lemma {:induction false} RefusedForTheFirst(v: Value)
    requires PoliciesFrom(v).Err?
    ensures if !v.Block? then PoliciesFrom(v).error == ExpectedBlock
            else exists i :: 0 <= i < |v.entries| && IsRefused(v.entries[i], PoliciesFrom(v).error)
                             && forall j :: 0 <= j < i ==> IsReadable(v.entries[j])
    decreases if v.Block? then |v.entries| else 0
  {
    hide PolicyFrom, FirstRefusal, IsReadable;
    if v.Block? {
      var entries := v.entries;
      var init, last := entries[..|entries| - 1], entries[|entries| - 1];
      if EachFrom(init).Err? {
        RefusedForTheFirst(Block(init));
        var i :| 0 <= i < |init| && IsRefused(init[i], PoliciesFrom(v).error)
                 && forall j :: 0 <= j < i ==> IsReadable(init[j]);
        assert forall j :: 0 <= j <= i ==> entries[j] == init[j];
        assert IsRefused(entries[i], PoliciesFrom(v).error);
      } else {
        ReadPoliciesAreOk(init);
        if last.value.Block? {
          PolicyRefused(last.key, last.value.entries);
        }
        assert forall j :: 0 <= j < |init| ==> entries[j] == init[j];
        assert IsRefused(entries[|init|], PoliciesFrom(v).error);
      }
    }
  }

  lemma {:induction false} ReadPoliciesAreOk(entries: seq<Entry>)
    requires EachFrom(entries).Ok?
    ensures forall j :: 0 <= j < |entries| ==> IsReadable(entries[j])
  {
    hide AddFields, Sort, FieldRefusal;
    if entries != [] {
      var init, last := entries[..|entries| - 1], entries[|entries| - 1];
      ReadPoliciesAreOk(init);
      FieldsRefused(Undeclared(last.key), last.value.entries);
      assert forall j :: 0 <= j < |init| ==> entries[j] == init[j];
    }
  }

  // ----- The order of fields ------------------------------------------------------------------------

  lemma {:induction false} ClaimsJoin(a: seq<Entry>, b: seq<Entry>)
    ensures ClaimsIn(a + b) == ClaimsIn(a) + ClaimsIn(b)
  {
    if b == [] {
      assert a + b == a;
    } else {
      var init := b[..|b| - 1];
      ClaimsJoin(a, init);
      assert (a + b)[..|a + b| - 1] == a + init;
    }
  }

  lemma MovedClaims(before: seq<Entry>, e: Entry, after: seq<Entry>)
    ensures multiset(ClaimsIn(before + [e] + after)) == multiset(ClaimsIn(before + after)) + multiset(ClaimsIn([e]))
  {
    hide ClaimsIn;
    ClaimsJoin(before + [e], after);
    ClaimsJoin(before, [e]);
    ClaimsJoin(before, after);
  }

  /** Taking one entry out of a list. */
  lemma TakenOut(b: seq<Entry>, e: Entry) returns (before: seq<Entry>, after: seq<Entry>)
    requires e in b
    ensures b == before + [e] + after
  {
    var i :| 0 <= i < |b| && b[i] == e;
    before, after := b[..i], b[i + 1..];
  }

  lemma SameRest(init: seq<Entry>, e: Entry, before: seq<Entry>, after: seq<Entry>)
    requires multiset(init + [e]) == multiset(before + [e] + after)
    ensures multiset(init) == multiset(before + after)
  {
    assert multiset(init + [e]) == multiset(init) + multiset{e};
    assert multiset(before + [e] + after) == multiset(before + after) + multiset{e};
    assert multiset(init) + multiset{e} - multiset{e} == multiset(init);
    assert multiset(before + after) + multiset{e} - multiset{e} == multiset(before + after);
  }

  lemma {:induction false} ClaimsOfRearranged(a: seq<Entry>, b: seq<Entry>)
    requires multiset(a) == multiset(b)
    ensures multiset(ClaimsIn(a)) == multiset(ClaimsIn(b))
  {
    hide ClaimsIn;
    if a == [] {
      assert |b| == |multiset(b)| == 0;
    } else {
      var init, last := a[..|a| - 1], a[|a| - 1];
      assert a == init + [last];
      assert last in multiset(b);
      var before, after := TakenOut(b, last);
      SameRest(init, last, before, after);
      ClaimsOfRearranged(init, before + after);
      ClaimsJoin(init, [last]);
      MovedClaims(before, last, after);
    }
  }

  /** No two fields of this name. */
  ghost predicate AtMostOne(fields: seq<Entry>, key: string) {
    forall e, d :: e in fields && d in fields && e.key == key && d.key == key ==> e == d
  }

  lemma {:induction false} LastTextIs(fields: seq<Entry>, key: string, otherwise: Option<string>)
    requires forall e <- fields :: e.key == key ==> e.value.Scalar?
    ensures if exists e <- fields :: e.key == key
            then exists e <- fields :: e.key == key && LastText(fields, key, otherwise) == Some(e.value.text)
            else LastText(fields, key, otherwise) == otherwise
  {
    if fields != [] {
      var init, last := fields[..|fields| - 1], fields[|fields| - 1];
      assert fields == init + [last];
      LastTextIs(init, key, otherwise);
      assert forall e :: e in fields <==> e in init || e == last;
      if last.key == key {
        assert last in fields && LastText(fields, key, otherwise) == Some(last.value.text);
      } else if exists e <- init :: e.key == key {
        var e :| e in init && e.key == key && LastText(init, key, otherwise) == Some(e.value.text);
        assert e in fields;
      }
    }
  }

  lemma SameLastText(a: seq<Entry>, b: seq<Entry>, key: string, otherwise: Option<string>)
    requires multiset(a) == multiset(b) && AtMostOne(a, key)
    requires forall e <- a :: e.key == key ==> e.value.Scalar?
    ensures LastText(a, key, otherwise) == LastText(b, key, otherwise)
  {
    hide LastText;
    forall e ensures e in a <==> e in b {
      assert e in multiset(a) <==> e in multiset(b);
    }
    LastTextIs(a, key, otherwise);
    LastTextIs(b, key, otherwise);
  }

  lemma ScalarFields(fields: seq<Entry>)
    requires forall e <- fields :: FieldOk(e)
    ensures forall e <- fields :: e.key == "resource" || e.key == "action" ==> e.value.Scalar?
  {
    forall e | e in fields && (e.key == "resource" || e.key == "action") ensures e.value.Scalar? {
      assert FieldOk(e);
    }
  }

  /** The order of the fields of a policy does not matter as long as it names at most one resource and one action. */
  lemma FieldOrderIsImmaterial(capability: string, a: seq<Entry>, b: seq<Entry>)
    requires multiset(a) == multiset(b) && AtMostOne(a, "resource") && AtMostOne(a, "action")
    requires PolicyFrom(capability, a).Ok?
    ensures PolicyFrom(capability, b) == PolicyFrom(capability, a)
  {
    hide PolicyFrom, LastText, ClaimsIn, Sort, TotalPreorder, Antisymmetric;
    PolicyFromExactly(capability, a);
    PolicyFromExactly(capability, b);
    forall e ensures e in a <==> e in b {
      assert e in multiset(a) <==> e in multiset(b);
    }
    assert forall e <- a :: e.key == "resource" || e.key == "action" ==> e.value.Scalar? by { ScalarFields(a); }
    SameLastText(a, b, "resource", None);
    SameLastText(a, b, "action", DefaultAction(capability));
    ClaimsOfRearranged(a, b);
    ConditionOrder();
    SortForgetsOrder(ClaimsIn(a), ClaimsIn(b), byCondition);
  }

  // ----- Which policies can be declared -------------------------------------------------------------

  function ClaimFields(claims: seq<PolicyClaimCondition>): seq<Entry> {
    seq(|claims|, i requires 0 <= i < |claims| => Entry(claims[i].claim, EnumOf(claims[i].values)))
  }

  function FieldsOf(p: PolicyDef): seq<Entry> {
    (if p.tenantCurrent then [Entry("tenant", Scalar("current"))] else []) +
    (if p.resource.Some? then [Entry("resource", Scalar(p.resource.value))] else []) +
    (if p.action.Some? then [Entry("action", Scalar(p.action.value))] else []) +
    ClaimFields(p.claims)
  }

  /** The claim conditions are in order, none is named like a field, and an action is named unless there is no default. */
  ghost predicate Declarable(p: PolicyDef) {
    && Sorted(p.claims, byCondition)
    && (forall c <- p.claims :: !Reserved(c.claim))
    && (p.action.None? ==> '.' !in p.capability)
  }

  lemma {:induction false} ClaimFieldsAdded(p: PolicyDef, claims: seq<PolicyClaimCondition>)
    requires forall c <- claims :: !Reserved(c.claim)
    ensures AddFields(p, ClaimFields(claims)) == Ok(p.(claims := p.claims + claims))
  {
    if claims == [] {
      assert p.claims + [] == p.claims;
    } else {
      var init, last := claims[..|claims| - 1], claims[|claims| - 1];
      assert claims == init + [last];
      ClaimFieldsAdded(p, init);
      assert ClaimFields(claims)[..|claims| - 1] == ClaimFields(init);
      assert p.claims + init + [last] == p.claims + claims;
    }
  }

  lemma {:induction false} AddFieldsJoins(p: PolicyDef, a: seq<Entry>, b: seq<Entry>)
    ensures AddFields(p, a + b) ==
            match AddFields(p, a) case Err(e) => Err(e) case Ok(q) => AddFields(q, b)
  {
    if b == [] {
      assert a + b == a;
    } else {
      var init := b[..|b| - 1];
      AddFieldsJoins(p, a, init);
      assert (a + b)[..|a + b| - 1] == a + init;
    }
  }

  lemma OneField(p: PolicyDef, e: Entry)
    ensures AddFields(p, [e]) == AddField(p, e) && AddFields(p, []) == Ok(p)
  {
    assert [e][..0] == [];
  }

  /** Writing a declarable policy as fields and reading them gives it back. */
  lemma FieldsGiveBack(p: PolicyDef)
    requires Declarable(p)
    ensures PolicyFrom(p.capability, FieldsOf(p)) == Ok(p)
  {
    hide AddFields, Sort, Sorted;
    var start := Undeclared(p.capability);
    var tenant := if p.tenantCurrent then [Entry("tenant", Scalar("current"))] else [];
    var resource := if p.resource.Some? then [Entry("resource", Scalar(p.resource.value))] else [];
    var action := if p.action.Some? then [Entry("action", Scalar(p.action.value))] else [];
    OneField(start, Entry("tenant", Scalar("current")));
    var q := start.(tenantCurrent := p.tenantCurrent);
    assert AddFields(start, tenant) == Ok(q);
    if p.resource.Some? {
      OneField(q, Entry("resource", Scalar(p.resource.value)));
    } else {
      OneField(q, Entry("", Scalar("")));
    }
    AddFieldsJoins(start, tenant, resource);
    var r := q.(resource := p.resource);
    assert AddFields(start, tenant + resource) == Ok(r);
    if p.action.Some? {
      OneField(r, Entry("action", Scalar(p.action.value)));
    } else {
      OneField(r, Entry("", Scalar("")));
    }
    AddFieldsJoins(start, tenant + resource, action);
    var s := r.(action := p.action);
    assert AddFields(start, tenant + resource + action) == Ok(s);
    ClaimFieldsAdded(s, p.claims);
    AddFieldsJoins(start, tenant + resource + action, ClaimFields(p.claims));
    assert [] + p.claims == p.claims;
    SortKeepsSorted(p.claims, byCondition);
  }

  lemma {:induction false} ClaimsInAreFree(fields: seq<Entry>)
    ensures forall c <- ClaimsIn(fields) :: !Reserved(c.claim)
  {
    if fields != [] {
      ClaimsInAreFree(fields[..|fields| - 1]);
    }
  }

  lemma {:induction false} ActionStays(fields: seq<Entry>, otherwise: Option<string>)
    ensures LastText(fields, "action", otherwise).None? ==> otherwise.None?
  {
    if fields != [] {
      ActionStays(fields[..|fields| - 1], otherwise);
    }
  }

  /** A policy can be declared by some block exactly when it is declarable. */
  lemma DeclarableExactly(p: PolicyDef)
    ensures (exists fields :: PolicyFrom(p.capability, fields) == Ok(p)) <==> Declarable(p)
  {
    hide PolicyFrom, Sort, Sorted, ClaimsIn, LastText, TotalPreorder, Antisymmetric;
    if Declarable(p) {
      FieldsGiveBack(p);
    }
    if fields :| PolicyFrom(p.capability, fields) == Ok(p) {
      PolicyFromExactly(p.capability, fields);
      ConditionOrder();
      SortSorts(ClaimsIn(fields), byCondition);
      ClaimsInAreFree(fields);
      forall c | c in p.claims ensures !Reserved(c.claim) {
        assert c in multiset(p.claims) && c in multiset(ClaimsIn(fields));
      }
      ActionStays(fields, DefaultAction(p.capability));
    }
  }
}
