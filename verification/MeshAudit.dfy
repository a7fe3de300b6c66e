/** The audit trail of every run: what was allowed is exactly what was recorded as granted. */
module MeshAudit {
  import opened Prelude
  import opened Contract
  import opened Evaluator
  import opened MeshModel
  import opened MeshRuns

  /** The event is the record of this very decision. */
  ghost predicate RecordOf(e: AuditEvent, d: AuthorizationDecision) {
    && d.Allow? && e.kind == Granted && d.auditEventId == Some(e.id)
    && e.principalId == Some(d.grant.principalId) && e.capability == Some(d.grant.capability)
    && e.tenantId == d.grant.tenantId
    && (d.grant.delegationId.Some? ==> e.delegationId == d.grant.delegationId)
  }

  function GrantedEvents(events: seq<AuditEvent>): seq<AuditEvent> {
    if events == [] then []
    else
      var rest, last := GrantedEvents(events[..|events| - 1]), events[|events| - 1];
      if last.kind == Granted then rest + [last] else rest
  }

  function Window(j: Journal): seq<AuthorizationDecision> {
    seq(|j.decisions|, i requires 0 <= i < |j.decisions| => j.decisions[i].decision)
  }

  function LastOf<T>(s: seq<T>, n: nat): seq<T> {
    if |s| <= n then s else s[|s| - n..]
  }

  /** The decisions replied in the first `n` steps that were recorded. */
  function RecordedReplies(b: Behavior, n: nat): seq<AuthorizationDecision>
    requires n <= |b.ops| && |b.ops| == |b.envs| && |b.states| == |b.ops| + 1
  {
    if n == 0 then []
    else
      var rest, reply := RecordedReplies(b, n - 1), b.ReplyAt(n - 1);
      if reply.Decided? && reply.decision.auditEventId.Some? then rest + [reply.decision] else rest
  }

  /** The Allows replied in the first `n` steps. */
  function Allows(b: Behavior, n: nat): seq<AuthorizationDecision>
    requires n <= |b.ops| && |b.ops| == |b.envs| && |b.states| == |b.ops| + 1
  {
    if n == 0 then []
    else
      var rest, reply := Allows(b, n - 1), b.ReplyAt(n - 1);
      if reply.Decided? && reply.decision.Allow? then rest + [reply.decision] else rest
  }

  ghost predicate AboutCaller(d: AuthorizationDecision, context: RuntimeContext, capability: Capability) {
    && d.auditEventId.None?
    && (d.Allow? ==> && d.grant.principalId == context.principal.id && d.grant.capability == capability
                     && d.grant.tenantId == context.tenant.tenantId)
  }

  /** One decision moves the journal in one of two ways: it is recorded under its own event, or it is a
      denial that leaves the window alone. */
  ghost predicate Journaled(j: Journal, k: Journal, d: AuthorizationDecision) {
    if d.auditEventId.Some? then
      && |k.events| == |j.events| + 1 && k.events[..|j.events|] == j.events
      && (if d.Allow? then RecordOf(k.events[|j.events|], d) else k.events[|j.events|].kind != Granted)
      && Window(k) == LastOf(Window(j) + [d], WINDOW)
    else
      d.Deny? && k.events == j.events && k.decisions == j.decisions
  }

  lemma RecordJournals(j: Journal, context: RuntimeContext, capability: Capability, d: AuthorizationDecision,
                       revision: nat, env: Env)
    requires |j.decisions| <= WINDOW && AboutCaller(d, context, capability)
    ensures var (k, r) := Record(j, context, capability, d, revision, env);
            Journaled(j, k, r) && |k.decisions| <= WINDOW
            && (!env.auditAccepts ==> r.Deny?)
  {
    var (k, r) := Record(j, context, capability, d, revision, env);
    if env.auditAccepts {
      var all := Window(j) + [r];
      assert Window(k) == LastOf(all, WINDOW) by {
        if |j.decisions| + 1 > WINDOW {
          assert |Window(k)| == |all[1..]|;
          assert forall i :: 0 <= i < |Window(k)| ==> Window(k)[i] == all[i + 1];
        }
      }
    }
  }

  lemma CapabilityDecisionIsAboutCaller(policy: Policy, context: RuntimeContext, delegation: Option<Delegation>,
                                        capability: Capability, now: int, clock: Option<int>)
    ensures AboutCaller(CapabilityDecision(Some(policy), Some(context.principal), Some(context.tenant), delegation,
                                           capability, now, clock), context, capability)
  {
    hide Holds, EvidenceOf, ClaimBasis, AgentDenial, DelegationDenial;
  }

  lemma RequestDecisionIsAboutCaller(policy: Policy, context: RuntimeContext, delegation: Option<Delegation>,
                                     request: AuthorizationRequest, attributes: Option<ResourceAttributes>,
                                     now: int, clock: Option<int>)
    ensures AboutCaller(RequestDecision(Some(policy), Some(context.principal), Some(context.tenant), delegation,
                                        request, attributes, now, clock), context, request.capability)
  {
    hide Holds, EvidenceOf, ClaimBasis, DelegationDenial, EarlyDenial, ScopeMatches, LastConcerned;
  }

  lemma AuthorizeRequestJournals(s: MeshState, context: RuntimeContext, request: AuthorizationRequest,
                                 attributes: Option<ResourceAttributes>, listing: seq<Delegation>, revision: nat, env: Env)
    requires |s.journal.decisions| <= WINDOW
    ensures var (k, r) := AuthorizeRequest(s, context, request, attributes, listing, revision, env);
            Journaled(s.journal, k, r) && |k.decisions| <= WINDOW && (!env.auditAccepts ==> r.Deny?)
  {
    hide Record, RequestDecision, PickDelegation, Journaled;
    var policy := PolicyOf(s.config, s.stores, context.tenant);
    if policy.Some? {
      var delegation := PickDelegation(listing, request.capability, env.now);
      RequestDecisionIsAboutCaller(policy.value, context, delegation, request, attributes, env.now, env.clock);
      RecordJournals(s.journal, context, request.capability,
                     RequestDecision(policy, Some(context.principal), Some(context.tenant), delegation, request,
                                     attributes, env.now, env.clock), revision, env);
    } else {
      DenialIsJournaled(s.journal, PolicyNotFound);
    }
  }

  lemma DenialIsJournaled(j: Journal, reason: DenialReason)
    ensures Journaled(j, j, DenyPlain(reason))
  {
  }

  lemma AuthorizeCapabilityJournals(s: MeshState, context: RuntimeContext, capability: Capability,
                                    listing: seq<Delegation>, revision: nat, env: Env)
    requires |s.journal.decisions| <= WINDOW
    ensures var (k, r) := AuthorizeCapability(s, context, capability, listing, revision, env);
            Journaled(s.journal, k, r) && |k.decisions| <= WINDOW && (!env.auditAccepts ==> r.Deny?)
  {
    hide Record, CapabilityDecision, PickDelegation, Journaled;
    var policy := PolicyOf(s.config, s.stores, context.tenant);
    if policy.Some? {
      var delegation := PickDelegation(listing, capability, env.now);
      CapabilityDecisionIsAboutCaller(policy.value, context, delegation, capability, env.now, env.clock);
      RecordJournals(s.journal, context, capability,
                     CapabilityDecision(policy, Some(context.principal), Some(context.tenant), delegation, capability,
                                        env.now, env.clock), revision, env);
    } else {
      DenialIsJournaled(s.journal, PolicyNotFound);
    }
  }

  lemma AuthorizeRunJournals(s: MeshState, context: RuntimeContext, runId: Id, request: AuthorizationRequest,
                             attributes: Option<ResourceAttributes>, listing: seq<Delegation>, revision: nat, env: Env)
    requires |s.journal.decisions| <= WINDOW
    ensures var (k, r) := AuthorizeRun(s, context, runId, request, attributes, listing, revision, env);
            Journaled(s.journal, k, r) && |k.decisions| <= WINDOW && (!env.auditAccepts ==> r.Deny?)
  {
    hide Record, AuthorizeRequest, PolicyOf, Journaled;
    var denial := RunDenial(s.stores, context, runId, request, attributes, env.now);
    if denial.Some? {
      var (reason, run) := denial.value;
      RecordJournals(s.journal, if run.Some? then context.(run := run) else context, request.capability,
                     DenyFor(request, reason, PolicyOf(s.config, s.stores, context.tenant), []), revision, env);
    } else {
      AuthorizeRequestJournals(s, context.(run := Some(CheckedRun(s.stores, context.tenant, runId, env.now).value)),
                               request, attributes, listing, revision, env);
    }
  }

  /** An operation that decides nothing adds no granted event and leaves the window alone. */
  ghost predicate Quiet(j: Journal, k: Journal) {
    && k.decisions == j.decisions
    && (k.events == j.events ||
        (|k.events| == |j.events| + 1 && k.events[..|j.events|] == j.events && k.events[|j.events|].kind != Granted))
  }

  lemma StepJournals(s: MeshState, op: Op, env: Env)
    requires |s.journal.decisions| <= WINDOW
    ensures var (t, reply) := Step(s, op, env);
            && |t.journal.decisions| <= WINDOW
            && (if reply.Decided? then Journaled(s.journal, t.journal, reply.decision) else Quiet(s.journal, t.journal))
            && (reply.Decided? && !env.auditAccepts ==> reply.decision.Deny?)
  {
    hide AuthorizeCapability, AuthorizeRequest, AuthorizeRun, ResolveSession, DelegateCheck, CreateRunCheck, Journaled,
         TenantOf, PrincipalOf, Unusable;
    match op {
      case AuthorizeOp(context, capability, listing, revision) =>
        AuthorizeCapabilityJournals(s, context, capability, listing, revision, env);
      case AuthorizeRequestOp(context, request, attributes, listing, revision) =>
        AuthorizeRequestJournals(s, context, request, attributes, listing, revision, env);
      case AuthorizeRunOp(context, runId, request, attributes, listing, revision) =>
        AuthorizeRunJournals(s, context, runId, request, attributes, listing, revision, env);
      case _ =>
    }
  }

  lemma {:induction false} WindowIsBounded(b: Behavior, n: nat)
    requires b.IsRun() && n < |b.states|
    ensures |b.states[n].journal.decisions| <= WINDOW
  {
    hide Step;
    if n > 0 {
      WindowIsBounded(b, n - 1);
      StepJournals(b.states[n - 1], b.ops[n - 1], b.envs[n - 1]);
    }
  }

  /** The decision window holds exactly the last hundred recorded decisions. */
  lemma {:induction false} WindowIsRecent(b: Behavior, n: nat)
    requires b.IsRun() && n < |b.states|
    ensures Window(b.states[n].journal) == LastOf(RecordedReplies(b, n), WINDOW)
  {
    hide Step;
    if n > 0 {
      WindowIsRecent(b, n - 1);
      WindowIsBounded(b, n - 1);
      StepJournals(b.states[n - 1], b.ops[n - 1], b.envs[n - 1]);
      var reply := b.ReplyAt(n - 1);
      if reply.Decided? && reply.decision.auditEventId.Some? {
        LastOfAppend(RecordedReplies(b, n - 1), reply.decision, WINDOW);
      }
    }
  }

  lemma LastOfAppend<T>(s: seq<T>, x: T, n: nat)
    requires n > 0
    ensures LastOf(LastOf(s, n) + [x], n) == LastOf(s + [x], n)
  {
    if |s| > n {
      assert LastOf(s, n) + [x] == (s + [x])[|s| - n..];
      assert ((s + [x])[|s| - n..])[1..] == (s + [x])[|s| + 1 - n..];
    }
  }

  /** Over every run the Allows returned and the granted events in the log correspond one to one and in
      order, each Allow carrying the id, principal, tenant and capability of its own event; and a decision whose
      event the log refuses is a denial. */
  lemma {:induction false} AllowsMatchGrantedEvents(b: Behavior, n: nat)
    requires b.IsRun() && n < |b.states|
    ensures var (granted, allowed) := (GrantedEvents(b.states[n].journal.events), Allows(b, n));
            |granted| == |allowed| && forall i :: 0 <= i < |granted| ==> RecordOf(granted[i], allowed[i])
    ensures forall i :: 0 <= i < n && b.ReplyAt(i).Decided? && !b.envs[i].auditAccepts ==> b.ReplyAt(i).decision.Deny?
  {
    hide Step, RecordOf;
    if n > 0 {
      AllowsMatchGrantedEvents(b, n - 1);
      WindowIsBounded(b, n - 1);
      StepJournals(b.states[n - 1], b.ops[n - 1], b.envs[n - 1]);
      var before, after := b.states[n - 1].journal.events, b.states[n].journal.events;
      if |after| == |before| + 1 {
        assert after[..|after| - 1] == before;
      }
      assert forall e: AuditEvent, d :: RecordOf(e, d) ==> e.kind == Granted && d.Allow? by {
        RecordOfMeans();
      }
    }
  }

  lemma RecordOfMeans()
    ensures forall e: AuditEvent, d :: RecordOf(e, d) ==> e.kind == Granted && d.Allow?
  {
  }

  /** Events are numbered upwards, so no two of them share an id. */
  ghost predicate Numbered(events: seq<AuditEvent>, next: nat) {
    && (forall e <- events :: e.id.sequence < next)
    && (forall i, k :: 0 <= i < k < |events| ==> events[i].id.sequence < events[k].id.sequence)
  }

  lemma StepNumbers(s: MeshState, op: Op, env: Env)
    requires Numbered(s.journal.events, s.journal.sequence)
    ensures var j := Step(s, op, env).0.journal; Numbered(j.events, j.sequence)
  {
    hide Numbered, CapabilityDecision, RequestDecision, PickDelegation, ResolveSession, Delegate, PolicyOf,
         CreateRunCheck, RevokeDelegation, CancelRun, SignUp, LinkAccount, SetAgentState, SignIn, Logout, Append, Remember,
         ScopeMatches, TenantOf;
    AppendNumbers(s.journal, env);
  }

  lemma AppendNumbers(j: Journal, env: Env)
    requires Numbered(j.events, j.sequence)
    ensures forall t, note :: Numbered(Append(j, t, note, env).events, Append(j, t, note, env).sequence)
  {
  }

  /** In every reachable state the audit events carry pairwise different ids. */
  lemma {:induction false} EventIdsAreUnique(b: Behavior, n: nat)
    requires b.IsRun() && n < |b.states|
    ensures Numbered(b.states[n].journal.events, b.states[n].journal.sequence)
  {
    hide Step;
    if n > 0 {
      EventIdsAreUnique(b, n - 1);
      StepNumbers(b.states[n - 1], b.ops[n - 1], b.envs[n - 1]);
    }
  }
}
