/** The shared authority vocabulary: scopes, delegations, principals and agent runs. */
module Contract {
  import opened Prelude

  type Id = string
  type Capability = string
  type Action = string

  datatype ClaimValue = Enum(name: string) | Text(text: string) | Integer(n: int) | Boolean(b: bool)

  type Attributes = map<string, ClaimValue>

  datatype PrincipalKind = Human | Agent | Service

  datatype AgentState = Created | Active | Suspended | Revoked | Retired

  datatype Principal = Principal(
    id: Id, kind: PrincipalKind, tenantId: Id, claims: Attributes, agentState: Option<AgentState>)

  datatype TenantContext = TenantContext(tenantId: Id, policyId: Id)

  datatype ResourceScope = ResourceScope(
    resourceType: Option<string>, resourceId: Option<string>, attributes: Attributes)
  {
    predicate IsUnconstrained() {
      resourceType.None? && resourceId.None? && attributes == map[]
    }

    /** Every constraint of `parent` is repeated here with the same value. */
    predicate IsSubsetOf(parent: ResourceScope) {
      && (parent.resourceType.Some? ==> resourceType == parent.resourceType)
      && (parent.resourceId.Some? ==> resourceId == parent.resourceId)
      && forall key <- parent.attributes :: key in attributes && attributes[key] == parent.attributes[key]
    }
  }

  datatype DelegationStatus = Live | Pending | Expired | Withdrawn

  datatype Delegation = Delegation(
    id: Id, delegator: Id, delegate: Id, tenantId: Id, capabilities: seq<Capability>,
    scope: ResourceScope, issuedAt: int, expiresAt: Option<int>, revokedAt: Option<int>, chain: seq<Id>)
  {
    function StatusAt(now: int): DelegationStatus {
      if revokedAt.Some? then Withdrawn
      else if issuedAt > now then Pending
      else if expiresAt.Some? && now >= expiresAt.value then Expired
      else Live
    }

    predicate IsValidAt(now: int) {
      StatusAt(now) == Live
    }
  }

  datatype RunStatus = RunActive | RunCompleted | RunCancelled | RunExpired | RunFailed

  datatype AgentRun = AgentRun(
    id: Id, tenantId: Id, agent: Id, delegator: Id, delegationId: Id, delegationChain: seq<Id>,
    taskId: Id, parentRunId: Option<Id>, createdAt: int, expiresAt: int, status: RunStatus,
    authorityRevision: nat, capabilities: seq<Capability>, scope: ResourceScope, cancelledAt: Option<int>)

  /** Scopes are partially ordered by inclusion, so narrowing can be chained along a tree. */
  lemma ScopeOrder(a: ResourceScope, b: ResourceScope, c: ResourceScope)
    ensures a.IsSubsetOf(a)
    ensures a.IsSubsetOf(b) && b.IsSubsetOf(c) ==> a.IsSubsetOf(c)
    ensures a.IsSubsetOf(b) && b.IsSubsetOf(a) ==> a == b
    ensures a.IsSubsetOf(ResourceScope(None, None, map[]))
    ensures ResourceScope(None, None, map[]).IsSubsetOf(a) ==> a.IsUnconstrained()
  {
    if a.IsSubsetOf(b) && b.IsSubsetOf(a) {
      assert a.resourceType == b.resourceType && a.resourceId == b.resourceId;
      assert a.attributes.Keys == b.attributes.Keys;
      assert a.attributes == b.attributes;
    }
    if ResourceScope(None, None, map[]).IsSubsetOf(a) {
      assert a.attributes.Keys == {};
    }
  }
}
