/** What decides the status of a proposal under any schedule, and which proposals get applied whatever their status. */
module StatusHistory {
  import opened Prelude
  import opened Authority
  import opened AuthorityLog
  import opened Interleaving
  import opened AuthoritySafety

  // ----- Events -------------------------------------------------------------------------------------

  /** The status a finishing approval or rejection gives the proposal. */
  function Decision(g: Global, a: Action, id: string): Option<ProposalStatus> {
    if id !in g.sys.proposals || a.t !in g.tasks then None
    else if a.FinishApprove? && g.tasks[a.t] == ApproveVerified(id) then Some(Approved)
    else if a.FinishReject? && g.tasks[a.t].RejectChecked? && g.tasks[a.t].id == id then Some(Rejected)
    else None
  }

  /** The step stores a change record of the proposal. */
  ghost predicate Commits(g: Global, a: Action, id: string) {
    exists k :: |g.log| <= k < |Next(g, a).log| && Next(g, a).log[k].proposalId == id
  }

  ghost function StatusEvent(g: Global, a: Action, id: string): Option<ProposalStatus> {
    if Decision(g, a, id).Some? then Decision(g, a, id) else if Commits(g, a, id) then Some(Applied) else None
  }

  /** The last status given by the steps from `m` up to `n`. */
  ghost function LastEvent(states: seq<Global>, actions: seq<Action>, m: nat, n: nat, id: string): Option<ProposalStatus>
    requires m <= n <= |actions| < |states|
  {
    if m == n then None
    else
      var event := StatusEvent(states[n - 1], actions[n - 1], id);
      if event.Some? then event else LastEvent(states, actions, m, n - 1, id)
  }

  /** The last approval or rejection that finished from `m` up to `n`. */
  function LastDecision(states: seq<Global>, actions: seq<Action>, m: nat, n: nat, id: string): Option<ProposalStatus>
    requires m <= n <= |actions| < |states|
  {
    if m == n then None
    else
      var decision := Decision(states[n - 1], actions[n - 1], id);
      if decision.Some? then decision else LastDecision(states, actions, m, n - 1, id)
  }

  // ----- One step -----------------------------------------------------------------------------------

  lemma {:induction false} FlushAllStatus(s: Sys, records: seq<ChangeRecord>, id: string)
    requires Known(s, records) && id in s.proposals
    ensures id in FlushAll(s, records).proposals
    ensures FlushAll(s, records).proposals[id].status ==
            if exists r <- records :: r.proposalId == id then Applied else s.proposals[id].status
  {
    if records != [] {
      var init, last := records[..|records| - 1], records[|records| - 1];
      assert records == init + [last] && Known(s, init);
      FlushAllStatus(s, init, id);
    }
  }

  lemma CommitStatus(g: Global, t: nat, millis: nat, id: string)
    requires Inv(g) && t in g.tasks && g.tasks[t].ApplyVerified? && id in g.sys.proposals
    ensures var (a, h) := (CommitApply(t, millis), Next(g, CommitApply(t, millis)));
            id in h.sys.proposals && h.sys.proposals[id].status ==
            if Commits(g, a, id) then Applied else g.sys.proposals[id].status
  {
    hide LogOk, Stores, StateAt, NamesOk, BasesOk, ProposalOk, OwnerOk, Preview, ChangeId, EndsInRevision;
    var p := g.tasks[t].proposal;
    assert TaskOk(g.sys, g.log, g.tasks[t]);
    if p.revision == g.sys.authority.revision {
      CurrentProposalPreviews(g, p);
      var h := Next(g, CommitApply(t, millis));
      assert |h.log| == |g.log| + 1 && h.log[|g.log|].proposalId == p.id;
    }
  }

  lemma BatchStatus(g: Global, t: nat, time: nat -> nat, id: string)
    requires Inv(g) && t in g.tasks && g.tasks[t].BatchLoaded? && id in g.sys.proposals
    ensures var (a, h) := (CommitBatchOf(t, time), Next(g, CommitBatchOf(t, time)));
            id in h.sys.proposals && h.sys.proposals[id].status ==
            if Commits(g, a, id) then Applied else g.sys.proposals[id].status
  {
    hide LogOk, Stores, StateAt, NamesOk, BasesOk, ProposalOk, OwnerOk, Plan, FlushAll;
    var stored := g.tasks[t].stored;
    assert TaskOk(g.sys, g.log, g.tasks[t]);
    if Plan(g.sys, stored, time, |stored|).Ok? {
      BatchCommits(g.sys, g.log, stored, time);
      var (next, records) := Plan(g.sys, stored, time, |stored|).value;
      FlushAllStatus(g.sys.(authority := next), records, id);
      var h := Next(g, CommitBatchOf(t, time));
      assert h.log == g.log + records;
      if r :| r in records && r.proposalId == id {
        var i :| 0 <= i < |records| && records[i] == r;
        assert h.log[|g.log| + i] == r;
      }
    }
  }

  /** Every other step leaves the log alone, and sets no status but by deciding. */
  lemma QuietStatus(g: Global, a: Action, id: string)
    requires Inv(g) && id in g.sys.proposals
    requires !(a.CommitApply? && a.t in g.tasks && g.tasks[a.t].ApplyVerified?)
    requires !(a.CommitBatchOf? && a.t in g.tasks && g.tasks[a.t].BatchLoaded?)
    ensures Next(g, a).log == g.log && id in Next(g, a).sys.proposals
    ensures Next(g, a).sys.proposals[id].status ==
            if Decision(g, a, id).Some? then Decision(g, a, id).value else g.sys.proposals[id].status
  {
    hide LogOk, Stores, StateAt, BasesOk, ProposalOk, OwnerOk, TaskOk, Preview, Staleness, LoadStep, NamesOk, ProposalId;
    FreshName(g.sys);
    assert a.LoadNext? && a.t in g.tasks && g.tasks[a.t].BatchLoading? ==>
           LoadStep(g, a.t, g.tasks[a.t].ids, g.tasks[a.t].stored).sys == g.sys
           && LoadStep(g, a.t, g.tasks[a.t].ids, g.tasks[a.t].stored).log == g.log by { LoadIsQuiet(g, a); }
  }

  lemma LoadIsQuiet(g: Global, a: Action)
    ensures a.LoadNext? && a.t in g.tasks && g.tasks[a.t].BatchLoading? ==>
            var h := LoadStep(g, a.t, g.tasks[a.t].ids, g.tasks[a.t].stored); h.sys == g.sys && h.log == g.log
  {
  }

  lemma StepStatus(g: Global, a: Action, id: string)
    requires Inv(g) && id in g.sys.proposals
    ensures id in Next(g, a).sys.proposals
    ensures Next(g, a).sys.proposals[id].status ==
            if StatusEvent(g, a, id).Some? then StatusEvent(g, a, id).value else g.sys.proposals[id].status
  {
    hide Inv, Next;
    if a.CommitApply? && a.t in g.tasks && g.tasks[a.t].ApplyVerified? {
      CommitStatus(g, a.t, a.millis, id);
    } else if a.CommitBatchOf? && a.t in g.tasks && g.tasks[a.t].BatchLoaded? {
      BatchStatus(g, a.t, a.time, id);
    } else {
      QuietStatus(g, a, id);
    }
  }

  /** A proposal that has just appeared is pending, and no step decides or commits one that is not there. */
  lemma AppearsPending(g: Global, a: Action, id: string)
    requires Inv(g) && id !in g.sys.proposals
    ensures StatusEvent(g, a, id).None?
    ensures id in Next(g, a).sys.proposals ==> Next(g, a).sys.proposals[id].status == Pending
  {
    hide Inv, Next;
    StepKeepsInv(g, a);
    if Commits(g, a, id) {
      OwnersAreStored(Next(g, a), id);
    }
    if id in Next(g, a).sys.proposals {
      AppearsOnlyNew(g, a, id);
    }
  }

  lemma OwnersAreStored(g: Global, id: string)
    requires Inv(g)
    ensures forall k :: 0 <= k < |g.log| ==> g.log[k].proposalId in g.sys.proposals
  {
    forall k | 0 <= k < |g.log| ensures g.log[k].proposalId in g.sys.proposals {
      assert OwnerOk(g.sys, g.log, g.bases, k);
    }
  }

  lemma CommitsAddNone(g: Global, a: Action)
    requires Inv(g) && (a.CommitApply? || a.CommitBatchOf?)
    ensures Next(g, a).sys.proposals.Keys == g.sys.proposals.Keys
  {
    hide LogOk, Stores, StateAt, NamesOk, BasesOk, ProposalOk, OwnerOk, Preview, ChangeId, Plan, FlushAll;
    if a.CommitBatchOf? && a.t in g.tasks && g.tasks[a.t].BatchLoaded? {
      var stored := g.tasks[a.t].stored;
      assert TaskOk(g.sys, g.log, g.tasks[a.t]);
      if Plan(g.sys, stored, a.time, |stored|).Ok? {
        BatchCommits(g.sys, g.log, stored, a.time);
      }
    }
  }

  lemma AppearsOnlyNew(g: Global, a: Action, id: string)
    requires Inv(g) && id !in g.sys.proposals && id in Next(g, a).sys.proposals
    ensures a.FinishPropose? && Next(g, a).log == g.log && Next(g, a).sys.proposals[id].status == Pending
  {
    hide Inv, Preview, Staleness, ProposalId, CommitStep, CommitBatchStep;
    if a.CommitApply? || a.CommitBatchOf? {
      CommitsAddNone(g, a);
    } else {
      LoadIsQuiet(g, a);
    }
  }

  // ----- Every schedule -----------------------------------------------------------------------------

  lemma {:induction false} AbsentHasNoEvent(states: seq<Global>, actions: seq<Action>, n: nat, id: string)
    requires IsRun(states, actions) && n <= |actions| && id !in states[n].sys.proposals
    ensures LastEvent(states, actions, 0, n, id).None?
  {
    hide Next, Inv, StatusEvent;
    if n > 0 {
      EveryScheduleKeepsInv(states, actions, n - 1);
      if id in states[n - 1].sys.proposals {
        StepStatus(states[n - 1], actions[n - 1], id);
      } else {
        AppearsPending(states[n - 1], actions[n - 1], id);
        AbsentHasNoEvent(states, actions, n - 1, id);
      }
    }
  }

  lemma {:induction false} StatusSince(states: seq<Global>, actions: seq<Action>, m: nat, n: nat, id: string)
    requires IsRun(states, actions) && m <= n <= |actions| && id in states[m].sys.proposals
    ensures id in states[n].sys.proposals
    ensures states[n].sys.proposals[id].status ==
            var last := LastEvent(states, actions, m, n, id);
            if last.Some? then last.value else states[m].sys.proposals[id].status
  {
    hide Next, Inv, StatusEvent;
    if m < n {
      StatusSince(states, actions, m, n - 1, id);
      EveryScheduleKeepsInv(states, actions, n - 1);
      StepStatus(states[n - 1], actions[n - 1], id);
    }
  }

  /** Under every schedule the status of a proposal is what the last finished approval, rejection or commit of
      it made it, and pending if there was none. */
  lemma {:induction false} StatusIsLastEvent(states: seq<Global>, actions: seq<Action>, n: nat, id: string)
    requires IsRun(states, actions) && n <= |actions| && id in states[n].sys.proposals
    ensures states[n].sys.proposals[id].status ==
            var last := LastEvent(states, actions, 0, n, id); if last.Some? then last.value else Pending
  {
    hide Next, Inv, StatusEvent;
    EveryScheduleKeepsInv(states, actions, n - 1);
    if id in states[n - 1].sys.proposals {
      StatusIsLastEvent(states, actions, n - 1, id);
      StepStatus(states[n - 1], actions[n - 1], id);
    } else {
      AbsentHasNoEvent(states, actions, n - 1, id);
      AppearsPending(states[n - 1], actions[n - 1], id);
    }
  }

  ghost predicate HasRecord(g: Global, id: string) {
    exists k :: 0 <= k < |g.log| && g.log[k].proposalId == id
  }

  lemma {:induction false} RecordedByCommit(states: seq<Global>, actions: seq<Action>, n: nat, id: string)
    requires IsRun(states, actions) && n <= |actions|
    ensures HasRecord(states[n], id) <==> exists i :: 0 <= i < n && Commits(states[i], actions[i], id)
  {
    hide Next;
    if n > 0 {
      RecordedByCommit(states, actions, n - 1, id);
      var g, h := states[n - 1], states[n];
      StepExtendsLog(g, actions[n - 1]);
      if k :| 0 <= k < |h.log| && h.log[k].proposalId == id {
        if k < |g.log| {
          assert g.log[k].proposalId == id;
        } else {
          assert Commits(states[n - 1], actions[n - 1], id);
        }
      }
      if i :| 0 <= i < n && Commits(states[i], actions[i], id) {
        if i == n - 1 {
          var k :| |g.log| <= k < |h.log| && h.log[k].proposalId == id;
        } else {
          var k :| 0 <= k < |g.log| && g.log[k].proposalId == id;
          assert h.log[k].proposalId == id;
        }
      }
    }
  }

  lemma {:induction false} CommitIsEvent(states: seq<Global>, actions: seq<Action>, i: nat, n: nat, id: string)
    requires i < n <= |actions| < |states| && Commits(states[i], actions[i], id)
    ensures LastEvent(states, actions, 0, n, id).Some?
  {
    if i < n - 1 {
      CommitIsEvent(states, actions, i, n - 1, id);
    }
  }

  /** Step `i` commits the proposal, and no approval or rejection of it finishes from there up to `n`. */
  ghost predicate CommittedLastAt(states: seq<Global>, actions: seq<Action>, i: nat, n: nat, id: string)
    requires i < n <= |actions| < |states|
  {
    Commits(states[i], actions[i], id) && LastDecision(states, actions, i + 1, n, id).None?
  }

  /** Under every schedule a proposal with a change record is marked applied exactly when no approval or
      rejection of it has finished since its last commit; a proposal without one is never marked so. */
  lemma RecordedIsAppliedExactly(states: seq<Global>, actions: seq<Action>, n: nat, id: string)
    requires IsRun(states, actions) && n <= |actions| && id in states[n].sys.proposals
    ensures states[n].sys.proposals[id].status == Applied <==>
            exists i :: 0 <= i < n && CommittedLastAt(states, actions, i, n, id)
    ensures states[n].sys.proposals[id].status == Applied ==> HasRecord(states[n], id)
  {
    hide Next, Decision, Commits;
    StatusIsLastEvent(states, actions, n, id);
    RecordedByCommit(states, actions, n, id);
    LastEventIsCommit(states, actions, n, id);
  }

  lemma DecisionIsNoCommit(g: Global, a: Action, id: string)
    ensures Decision(g, a, id).Some? ==> Next(g, a).log == g.log && !Commits(g, a, id)
    ensures Decision(g, a, id) != Some(Applied)
  {
  }

  lemma {:induction false} LastEventIsCommit(states: seq<Global>, actions: seq<Action>, n: nat, id: string)
    requires n <= |actions| < |states|
    ensures LastEvent(states, actions, 0, n, id) == Some(Applied) <==>
            exists i :: 0 <= i < n && CommittedLastAt(states, actions, i, n, id)
  {
    hide Next, Decision, Commits;
    if n > 0 {
      LastEventIsCommit(states, actions, n - 1, id);
      var g, a := states[n - 1], actions[n - 1];
      DecisionIsNoCommit(g, a, id);
      var before: nat := n - 1;
      forall i | 0 <= i < before
        ensures CommittedLastAt(states, actions, i, n, id) <==>
                CommittedLastAt(states, actions, i, before, id) && Decision(g, a, id).None?
      {
      }
      assert CommittedLastAt(states, actions, before, n, id) <==> Commits(g, a, id);
    }
  }

  // ----- What a commit finds ------------------------------------------------------------------------

  /** The caller has loaded this proposal with this approval and not committed it yet. */
  predicate Applying(g: Global, t: nat, p: StoredProposal, approval: Approval) {
    t in g.tasks && (g.tasks[t] == ApplyLoaded(p, approval) || g.tasks[t] == ApplyVerified(p, approval))
  }

  /** The step that loaded a proposal being applied. */
  lemma {:induction false} LoadedAt(states: seq<Global>, actions: seq<Action>, n: nat, t: nat, p: StoredProposal, approval: Approval)
    returns (m: nat)
    requires IsRun(states, actions) && n <= |actions| && Applying(states[n], t, p, approval)
    ensures m < n && actions[m] == StartApply(t, p.id, approval) && forall k :: m < k <= n ==> Applying(states[k], t, p, approval)
    ensures p.id in states[m].sys.proposals && states[m].sys.proposals[p.id] == p && p.status == Approved
  {
    hide Next, Inv;
    if Applying(states[n - 1], t, p, approval) {
      m := LoadedAt(states, actions, n - 1, t, p, approval);
    } else {
      m := n - 1;
      EveryScheduleKeepsInv(states, actions, m);
      BeginsApplying(states[m], actions[m], t, p, approval);
    }
  }

  lemma BeginsApplying(g: Global, a: Action, t: nat, p: StoredProposal, approval: Approval)
    requires Inv(g) && Applying(Next(g, a), t, p, approval) && !Applying(g, t, p, approval)
    ensures a == StartApply(t, p.id, approval)
    ensures p.id in g.sys.proposals && g.sys.proposals[p.id] == p && p.status == Approved
  {
    hide LogOk, Stores, StateAt, BasesOk, ProposalOk, OwnerOk, TaskOk, Preview, Staleness, StoreProposal, CommitOne, CommitBatch;
  }

  lemma {:induction false} NoCommitNoEvent(states: seq<Global>, actions: seq<Action>, m: nat, n: nat, id: string)
    requires IsRun(states, actions) && m <= n <= |actions| && states[m].log == states[n].log
    ensures LastEvent(states, actions, m, n, id) == LastDecision(states, actions, m, n, id)
  {
    hide Next, Decision;
    if m < n {
      LogsExtend(states, actions, m, n - 1);
      LogsExtend(states, actions, n - 1, n);
      assert states[n - 1].log == states[n].log;
      NoCommitNoEvent(states, actions, m, n - 1, id);
    }
  }

  /** From the step that reads a proposal to the commit of its revision nothing is committed, so its status can
      only have been decided on. */
  lemma StatusUntilCommit(states: seq<Global>, actions: seq<Action>, m: nat, n: nat, id: string)
    requires IsRun(states, actions) && m <= n <= |actions| && id in states[m].sys.proposals
    requires states[m].sys.proposals[id].revision == states[n].sys.authority.revision
    ensures id in states[n].sys.proposals && states[m].log == states[n].log
    ensures states[n].sys.proposals[id].status ==
            var last := LastDecision(states, actions, m, n, id);
            if last.Some? then last.value else states[m].sys.proposals[id].status
  {
    hide Next, Inv, Decision, LastEvent;
    EveryScheduleKeepsInv(states, actions, m);
    EveryScheduleKeepsInv(states, actions, n);
    AuthorityIsLast(states[n]);
    LogsExtend(states, actions, m, n);
    RevisionWithinLog(states[m], id);
    assert states[m].log == states[n].log;
    NoCommitNoEvent(states, actions, m, n, id);
    StatusSince(states, actions, m, n, id);
  }

  lemma RevisionWithinLog(g: Global, id: string)
    requires Inv(g) && id in g.sys.proposals
    ensures g.sys.proposals[id].revision <= |g.log|
  {
    assert ProposalOk(g.log, g.sys.proposals[id]);
  }

  /** Under every schedule the proposal an apply commits is still approved at that moment exactly when the last
      approval or rejection of it to finish since the apply loaded it, if any, was an approval. */
  lemma ApprovedAtCommitExactly(states: seq<Global>, actions: seq<Action>, n: nat) returns (m: nat)
    requires IsRun(states, actions) && n < |actions| && actions[n].CommitApply?
    requires actions[n].t in states[n].tasks && states[n].tasks[actions[n].t].ApplyVerified?
    requires states[n].tasks[actions[n].t].proposal.revision == states[n].sys.authority.revision
    ensures var (t, p, approval) := (actions[n].t, states[n].tasks[actions[n].t].proposal, states[n].tasks[actions[n].t].approval);
            && m < n && actions[m] == StartApply(t, p.id, approval) && (forall k :: m < k <= n ==> Applying(states[k], t, p, approval))
            && p.id in states[n].sys.proposals
            && (states[n].sys.proposals[p.id].status == Approved <==>
                LastDecision(states, actions, m, n, p.id) in {None, Some(Approved)})
            && Commits(states[n], actions[n], p.id)
  {
    hide Next, Inv, Decision, LastDecision;
    var task := states[n].tasks[actions[n].t];
    m := LoadedAt(states, actions, n, actions[n].t, task.proposal, task.approval);
    StatusUntilCommit(states, actions, m, n, task.proposal.id);
    DecisionsAre(states, actions, m, n, task.proposal.id);
    AppliedAsPreviewed(states, actions, n);
    CommitsItsOwn(states, actions, n);
  }

  lemma CommitsItsOwn(states: seq<Global>, actions: seq<Action>, n: nat)
    requires IsRun(states, actions) && n < |actions| && actions[n].CommitApply?
    requires actions[n].t in states[n].tasks && states[n].tasks[actions[n].t].ApplyVerified?
    requires states[n].tasks[actions[n].t].proposal.revision == states[n].sys.authority.revision
    ensures Commits(states[n], actions[n], states[n].tasks[actions[n].t].proposal.id)
  {
    hide Next, Inv;
    EveryScheduleKeepsInv(states, actions, n);
    CopyKeepsRevision(states[n], actions[n].t);
    AppliedAsPreviewed(states, actions, n);
    assert states[n + 1].log[|states[n].log|].proposalId == states[n].tasks[actions[n].t].proposal.id;
  }

  lemma CopyKeepsRevision(g: Global, t: nat)
    requires Inv(g) && t in g.tasks && g.tasks[t].ApplyVerified?
    ensures var p := g.tasks[t].proposal; p.id in g.sys.proposals && g.sys.proposals[p.id].revision == p.revision
  {
    assert TaskOk(g.sys, g.log, g.tasks[t]);
  }

  lemma {:induction false} DecisionsAre(states: seq<Global>, actions: seq<Action>, m: nat, n: nat, id: string)
    requires m <= n <= |actions| < |states|
    ensures LastDecision(states, actions, m, n, id) in {None, Some(Approved), Some(Rejected)}
  {
    if m < n {
      DecisionsAre(states, actions, m, n - 1, id);
    }
  }

  // ----- What a batch finds -------------------------------------------------------------------------

  /** The caller's batch has read the first `k + 1` of these proposals, or all of them. */
  predicate Batching(g: Global, t: nat, stored: seq<StoredProposal>, k: nat) {
    t in g.tasks &&
    (g.tasks[t] == BatchLoaded(stored)
     || (g.tasks[t].BatchLoading? && k < |g.tasks[t].stored| && g.tasks[t].stored <= stored))
  }

  /** The step that read the proposal at position `k` of a batch. */
  lemma {:induction false} ReadAt(states: seq<Global>, actions: seq<Action>, n: nat, t: nat, stored: seq<StoredProposal>, k: nat)
    returns (m: nat)
    requires IsRun(states, actions) && n <= |actions| && k < |stored| && Batching(states[n], t, stored, k)
    ensures m < n && actions[m] == LoadNext(t) && forall i :: m < i <= n ==> Batching(states[i], t, stored, k)
    ensures stored[k].id in states[m].sys.proposals && states[m].sys.proposals[stored[k].id] == stored[k]
  {
    hide Next, Inv;
    if Batching(states[n - 1], t, stored, k) {
      m := ReadAt(states, actions, n - 1, t, stored, k);
    } else {
      m := n - 1;
      EveryScheduleKeepsInv(states, actions, m);
      BeginsBatching(states[m], actions[m], t, stored, k);
    }
  }

  lemma BeginsBatching(g: Global, a: Action, t: nat, stored: seq<StoredProposal>, k: nat)
    requires Inv(g) && k < |stored| && Batching(Next(g, a), t, stored, k) && !Batching(g, t, stored, k)
    ensures a == LoadNext(t)
    ensures stored[k].id in g.sys.proposals && g.sys.proposals[stored[k].id] == stored[k]
  {
    hide LogOk, Stores, StateAt, BasesOk, ProposalOk, OwnerOk, TaskOk, Preview, Staleness, StoreProposal, CommitOne, CommitBatch;
  }

  /** A batch only gets to its commit with proposals it has read as approved. */
  lemma {:induction false} BatchReadApproved(states: seq<Global>, actions: seq<Action>, n: nat, t: nat)
    requires IsRun(states, actions) && n <= |actions| && t in states[n].tasks && states[n].tasks[t].BatchLoaded?
    ensures forall p <- states[n].tasks[t].stored :: p.status == Approved
  {
    hide Next;
    var g := states[n - 1];
    if t in g.tasks && g.tasks[t] == states[n].tasks[t] {
      BatchReadApproved(states, actions, n - 1, t);
    } else {
      BeginsLoaded(g, actions[n - 1], t);
    }
  }

  lemma BeginsLoaded(g: Global, a: Action, t: nat)
    requires t in Next(g, a).tasks && Next(g, a).tasks[t].BatchLoaded?
    requires !(t in g.tasks && g.tasks[t] == Next(g, a).tasks[t])
    ensures forall p <- Next(g, a).tasks[t].stored :: p.status == Approved
  {
    hide Preview, Staleness, StoreProposal, CommitOne, CommitBatch;
  }

  /** Under every schedule a proposal a batch commits is still approved at that moment exactly when the last
      approval or rejection of it to finish since the batch read it, if any, was an approval. */
  lemma BatchApprovedAtCommitExactly(states: seq<Global>, actions: seq<Action>, n: nat, k: nat) returns (m: nat)
    requires IsRun(states, actions) && n < |actions| && actions[n].CommitBatchOf?
    requires actions[n].t in states[n].tasks && states[n].tasks[actions[n].t].BatchLoaded?
    requires k < |states[n].tasks[actions[n].t].stored| && |states[n + 1].log| > |states[n].log|
    ensures var (t, stored) := (actions[n].t, states[n].tasks[actions[n].t].stored);
            && m < n && actions[m] == LoadNext(t) && (forall i :: m < i <= n ==> Batching(states[i], t, stored, k))
            && stored[k].id in states[n].sys.proposals
            && (states[n].sys.proposals[stored[k].id].status == Approved <==>
                LastDecision(states, actions, m, n, stored[k].id) in {None, Some(Approved)})
            && Commits(states[n], actions[n], stored[k].id)
  {
    hide Next, Inv, Decision, LastDecision;
    var t := actions[n].t;
    var stored := states[n].tasks[t].stored;
    m := ReadAt(states, actions, n, t, stored, k);
    EveryScheduleKeepsInv(states, actions, n);
    CommittedBatch(states[n], t, actions[n].time, k);
    StatusUntilCommit(states, actions, m, n, stored[k].id);
    BatchReadApproved(states, actions, n, t);
    assert stored[k] in stored;
    DecisionsAre(states, actions, m, n, stored[k].id);
  }

  lemma CommittedBatch(g: Global, t: nat, time: nat -> nat, k: nat)
    requires Inv(g) && t in g.tasks && g.tasks[t].BatchLoaded? && k < |g.tasks[t].stored|
    requires |Next(g, CommitBatchOf(t, time)).log| > |g.log|
    ensures g.tasks[t].stored[k].revision == g.sys.authority.revision
    ensures Commits(g, CommitBatchOf(t, time), g.tasks[t].stored[k].id)
  {
    hide LogOk, Stores, StateAt, NamesOk, BasesOk, ProposalOk, OwnerOk, Plan, FlushAll;
    var stored := g.tasks[t].stored;
    assert TaskOk(g.sys, g.log, g.tasks[t]);
    AuthorityIsLast(g);
    if Plan(g.sys, stored, time, |stored|).Ok? {
      BatchCommits(g.sys, g.log, stored, time);
      var records := Plan(g.sys, stored, time, |stored|).value.1;
      assert RecordIsOf(records[k], stored[k], |g.log|);
      assert Next(g, CommitBatchOf(t, time)).log[|g.log| + k] == records[k];
    }
  }

  // ----- The revision a caller is told --------------------------------------------------------------

  /** The revision an apply returns is read after its commit. Read in a later state it is that of the commit
      exactly when nothing has been committed in between, and otherwise newer. */
  lemma RevisionToldExactly(states: seq<Global>, actions: seq<Action>, n: nat, k: nat)
    requires IsRun(states, actions) && n < k <= |actions|
    ensures states[k].sys.authority.revision >= states[n + 1].sys.authority.revision
    ensures states[k].sys.authority.revision == states[n + 1].sys.authority.revision <==> states[k].log == states[n + 1].log
  {
    hide Next, Inv;
    EveryScheduleKeepsInv(states, actions, n + 1);
    EveryScheduleKeepsInv(states, actions, k);
    AuthorityIsLast(states[n + 1]);
    AuthorityIsLast(states[k]);
    LogsExtend(states, actions, n + 1, k);
  }
}
