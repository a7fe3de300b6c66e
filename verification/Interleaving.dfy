/** Any number of callers proposing, approving, rejecting, applying and batch-applying at once. Each call is
    cut where it lets go of the authority lock or returns to the store, so a step is what one caller does
    between two such points; a commit, done under the write lock, is one step. */
module Interleaving {
  import opened Prelude
  import opened Authority
  import opened AuthorityLog

  /** What a caller has read so far. */
  datatype Task =
    | ProposeRead(current: LiveAuthorityState, change: AuthorityChange, discoveryRevision: nat)
    | ProposeReady(current: LiveAuthorityState, after: LiveAuthorityState, change: AuthorityChange, discoveryRevision: nat)
    | ApproveChecked(proposal: StoredProposal)
    | ApproveVerified(id: string)
    | RejectChecked(id: string, reason: string)
    | ApplyLoaded(proposal: StoredProposal, approval: Approval)
    | ApplyVerified(proposal: StoredProposal, approval: Approval)
    | BatchLoading(ids: seq<string>, stored: seq<StoredProposal>)
    | BatchLoaded(stored: seq<StoredProposal>)

  /** `log` and `bases` only record history: all change records in commit order, and the revision each
      commit started from. */
  datatype Global = Global(sys: Sys, tasks: map<nat, Task>, log: seq<ChangeRecord>, bases: seq<nat>)

  datatype Action =
    | StartPropose(t: nat, change: AuthorityChange, discoveryRevision: nat) | PreviewPropose(t: nat) | FinishPropose(t: nat)
    | StartApprove(t: nat, id: string) | VerifyApprove(t: nat) | FinishApprove(t: nat)
    | StartReject(t: nat, id: string, reason: string) | FinishReject(t: nat)
    | StartApply(t: nat, id: string, approval: Approval) | VerifyApply(t: nat) | CommitApply(t: nat, millis: nat)
    | StartBatch(t: nat, ids: seq<string>) | LoadNext(t: nat) | CommitBatchOf(t: nat, time: nat -> nat)

  function With(g: Global, t: nat, task: Task): Global {
    g.(tasks := g.tasks[t := task])
  }

  function Without(g: Global, t: nat): Global {
    g.(tasks := g.tasks - {t})
  }

  function Next(g: Global, a: Action): Global {
    match a
    case StartPropose(t, change, discoveryRevision) =>
      if t in g.tasks then g else With(g, t, ProposeRead(g.sys.authority, change, discoveryRevision))
    case StartApprove(t, id) =>
      if t in g.tasks || id !in g.sys.proposals || g.sys.proposals[id].status != Pending then g
      else With(g, t, ApproveChecked(g.sys.proposals[id]))
    case StartReject(t, id, reason) =>
      if t in g.tasks || id !in g.sys.proposals || g.sys.proposals[id].status in {Applied, Rejected} then g
      else With(g, t, RejectChecked(id, reason))
    case StartApply(t, id, approval) =>
      if t in g.tasks || id !in g.sys.proposals || g.sys.proposals[id].status != Approved then g
      else With(g, t, ApplyLoaded(g.sys.proposals[id], approval))
    case StartBatch(t, ids) =>
      if t in g.tasks || ids == [] then g else With(g, t, BatchLoading(ids, []))
    case CommitApply(t, millis) =>
      if t in g.tasks && g.tasks[t].ApplyVerified? then Without(CommitStep(g, g.tasks[t], millis), t) else g
    case CommitBatchOf(t, time) =>
      if t in g.tasks && g.tasks[t].BatchLoaded? then Without(CommitBatchStep(g, g.tasks[t].stored, time), t) else g
    case _ =>
      if a.t in g.tasks then Continue(g, a, g.tasks[a.t]) else g
  }

  /** The steps in the middle of a call. */
  function Continue(g: Global, a: Action, task: Task): Global {
    match (a, task)
    case (PreviewPropose(t), ProposeRead(current, change, discoveryRevision)) =>
      (match Preview(current, change, g.sys.changes)
       case Err(_) => Without(g, t)
       case Ok(after) => With(g, t, ProposeReady(current, after, change, discoveryRevision)))
    case (FinishPropose(t), ProposeReady(current, after, change, discoveryRevision)) =>
      Without(g.(sys := StoreProposal(g.sys, current, after, change, discoveryRevision).0), t)
    case (VerifyApprove(t), ApproveChecked(p)) =>
      if Staleness(g.sys, p).Some? then Without(g, t) else With(g, t, ApproveVerified(p.id))
    case (FinishApprove(t), ApproveVerified(id)) =>
      if id in g.sys.proposals then Without(g.(sys := SetStatus(g.sys, id, Approved)), t) else Without(g, t)
    case (FinishReject(t), RejectChecked(id, reason)) =>
      if id in g.sys.proposals then Without(g.(sys := MarkRejected(g.sys, id, reason)), t) else Without(g, t)
    case (VerifyApply(t), ApplyLoaded(p, approval)) =>
      if Staleness(g.sys, p).Some? || approval.token != p.change then Without(g, t)
      else With(g, t, ApplyVerified(p, approval))
    case (LoadNext(t), BatchLoading(ids, stored)) => LoadStep(g, t, ids, stored)
    case _ => g
  }

  /** A batch reads its proposals one after another, then looks at the statuses it has read. */
  function LoadStep(g: Global, t: nat, ids: seq<string>, stored: seq<StoredProposal>): Global {
    if |stored| < |ids| then
      if ids[|stored|] !in g.sys.proposals then Without(g, t)
      else With(g, t, BatchLoading(ids, stored + [g.sys.proposals[ids[|stored|]]]))
    else if exists p <- stored :: p.status != Approved then Without(g, t)
    else With(g, t, BatchLoaded(stored))
  }

  function CommitStep(g: Global, task: Task, millis: nat): Global
    requires task.ApplyVerified?
  {
    var (s, r) := CommitOne(g.sys, ProposalOf(task.proposal), millis);
    if r.Ok? && r.value in s.changes
    then g.(sys := s, log := g.log + [s.changes[r.value]], bases := g.bases + [g.sys.authority.revision])
    else g.(sys := s)
  }

  function CommitBatchStep(g: Global, stored: seq<StoredProposal>, time: nat -> nat): Global {
    var (s, r) := CommitBatch(g.sys, stored, time);
    if r.Ok? then g.(sys := s, log := g.log + r.value, bases := g.bases + [g.sys.authority.revision])
    else g.(sys := s)
  }

  ghost predicate Initial(g: Global) {
    g.sys == Sys(g.sys.fingerprint, INITIAL, map[], map[], 1) && g.tasks == map[] && g.log == [] && g.bases == []
  }

  /** Any schedule. */
  ghost predicate IsRun(states: seq<Global>, actions: seq<Action>) {
    && |states| == |actions| + 1 && Initial(states[0])
    && forall i :: 0 <= i < |actions| ==> Next(states[i], actions[i]) == states[i + 1]
  }

  // ----- The invariant --------------------------------------------------------------------------

  /** The two copies differ at most in status and in what is recorded with it. */
  ghost predicate SameProposal(p: StoredProposal, q: StoredProposal) {
    p == q.(status := p.status, changeId := p.changeId, rejectionReason := p.rejectionReason)
  }

  /** A proposal shows the state its revision had, and what its change means there. */
  ghost predicate ProposalOk(log: seq<ChangeRecord>, p: StoredProposal) {
    && p.revision <= |log|
    && p.before == StateAt(log, p.revision).view
    && Meaning(log, p.revision, p.change) == Some(p.after)
  }

  ghost predicate Copied(s: Sys, p: StoredProposal) {
    p.id in s.proposals && SameProposal(s.proposals[p.id], p)
  }

  ghost predicate WasState(log: seq<ChangeRecord>, current: LiveAuthorityState) {
    current.revision <= |log| && current == StateAt(log, current.revision)
  }

  ghost predicate TaskOk(s: Sys, log: seq<ChangeRecord>, task: Task) {
    match task
    case ProposeRead(current, _, _) => WasState(log, current)
    case ProposeReady(current, after, change, _) =>
      WasState(log, current) && Meaning(log, current.revision, change) == Some(after.view)
    case ApproveChecked(p) => Copied(s, p)
    case ApproveVerified(id) => id in s.proposals
    case RejectChecked(id, _) => id in s.proposals
    case ApplyLoaded(p, _) => Copied(s, p)
    case ApplyVerified(p, approval) => Copied(s, p) && approval.token == p.change
    case BatchLoading(ids, stored) =>
      ids != [] && |stored| <= |ids| && (forall p <- stored :: Copied(s, p))
      && forall i :: 0 <= i < |stored| ==> stored[i].id == ids[i]
    case BatchLoaded(stored) => stored != [] && forall p <- stored :: Copied(s, p)
  }

  ghost predicate OwnerOk(s: Sys, log: seq<ChangeRecord>, bases: seq<nat>, k: nat)
    requires k < |log|
  {
    && log[k].proposalId in s.proposals
    && var p := s.proposals[log[k].proposalId];
       p.revision <= k && p.revision in bases && p.change == log[k].change
  }

  ghost predicate NamesOk(proposals: map<string, StoredProposal>, nextId: nat) {
    forall id <- proposals :: proposals[id].id == id && exists n: nat :: n < nextId && id == ProposalId(n)
  }

  ghost predicate BasesOk(bases: seq<nat>, revision: nat) {
    && (forall b <- bases :: b < revision)
    && (forall i, j :: 0 <= i < j < |bases| ==> bases[i] < bases[j])
  }

  ghost predicate Inv(g: Global) {
    && LogOk(g.log) && Stores(g.sys.changes, g.log) && g.sys.authority == StateAt(g.log, |g.log|)
    && NamesOk(g.sys.proposals, g.sys.nextId) && BasesOk(g.bases, |g.log|)
    && (forall id <- g.sys.proposals :: ProposalOk(g.log, g.sys.proposals[id]))
    && (forall k :: 0 <= k < |g.log| ==> OwnerOk(g.sys, g.log, g.bases, k))
    && (forall t <- g.tasks :: TaskOk(g.sys, g.log, g.tasks[t]))
  }

  // ----- Growth ---------------------------------------------------------------------------------

  ghost predicate ProposalsGrow(s: Sys, t: Sys) {
    forall id <- s.proposals :: id in t.proposals && SameProposal(t.proposals[id], s.proposals[id])
  }

  lemma ProposalOkGrows(log: seq<ChangeRecord>, more: seq<ChangeRecord>, p: StoredProposal, q: StoredProposal)
    requires ProposalOk(log, p) && SameProposal(q, p)
    ensures ProposalOk(log + more, q)
  {
    PastIsFixed(log, more, p.revision, p.change);
  }

  lemma TaskOkGrows(s: Sys, t: Sys, log: seq<ChangeRecord>, more: seq<ChangeRecord>, task: Task)
    requires TaskOk(s, log, task) && ProposalsGrow(s, t)
    ensures TaskOk(t, log + more, task)
  {
    match task {
      case ProposeRead(current, change, _) => PastIsFixed(log, more, current.revision, change);
      case ProposeReady(current, _, change, _) => PastIsFixed(log, more, current.revision, change);
      case _ =>
    }
  }

  /** Everything the invariant says about proposals and tasks survives growth; what is left to show is said
      about the new part only. */
  lemma InvGrows(g: Global, h: Global, more: seq<ChangeRecord>, base: seq<nat>)
    requires Inv(g) && h.log == g.log + more && h.bases == g.bases + base && ProposalsGrow(g.sys, h.sys)
    requires LogOk(h.log) && Stores(h.sys.changes, h.log) && h.sys.authority == StateAt(h.log, |h.log|)
    requires NamesOk(h.sys.proposals, h.sys.nextId) && BasesOk(h.bases, |h.log|)
    requires forall id <- h.sys.proposals :: id !in g.sys.proposals ==> ProposalOk(h.log, h.sys.proposals[id])
    requires forall k :: |g.log| <= k < |h.log| ==> OwnerOk(h.sys, h.log, h.bases, k)
    requires forall t <- h.tasks :: (t in g.tasks && h.tasks[t] == g.tasks[t]) || TaskOk(h.sys, h.log, h.tasks[t])
    ensures Inv(h)
  {
    hide LogOk, Stores, StateAt, NamesOk, BasesOk, Meaning;
    forall id | id in h.sys.proposals ensures ProposalOk(h.log, h.sys.proposals[id]) {
      if id in g.sys.proposals {
        ProposalOkGrows(g.log, more, g.sys.proposals[id], h.sys.proposals[id]);
      }
    }
    forall k | 0 <= k < |h.log| ensures OwnerOk(h.sys, h.log, h.bases, k) {
      if k < |g.log| {
        assert OwnerOk(g.sys, g.log, g.bases, k);
        assert SameProposal(h.sys.proposals[g.log[k].proposalId], g.sys.proposals[g.log[k].proposalId]);
      }
    }
    forall t | t in h.tasks ensures TaskOk(h.sys, h.log, h.tasks[t]) {
      if t in g.tasks && h.tasks[t] == g.tasks[t] {
        TaskOkGrows(g.sys, h.sys, g.log, more, g.tasks[t]);
      }
    }
  }

  /** A step that touches neither the log nor the changes. */
  lemma QuietStep(g: Global, h: Global)
    requires Inv(g) && h.log == g.log && h.bases == g.bases && h.sys.changes == g.sys.changes
    requires h.sys.authority == g.sys.authority && ProposalsGrow(g.sys, h.sys) && NamesOk(h.sys.proposals, h.sys.nextId)
    requires forall id <- h.sys.proposals :: id !in g.sys.proposals ==> ProposalOk(h.log, h.sys.proposals[id])
    requires forall t <- h.tasks :: (t in g.tasks && h.tasks[t] == g.tasks[t]) || TaskOk(h.sys, h.log, h.tasks[t])
    ensures Inv(h)
  {
    hide ProposalOk, TaskOk, OwnerOk, LogOk, Stores, StateAt, NamesOk, BasesOk, ProposalsGrow;
    assert g.log + [] == h.log && g.bases + [] == h.bases;
    InvGrows(g, h, [], []);
  }

  // ----- Every step keeps the invariant -------------------------------------------------------------

  lemma FreshName(s: Sys)
    requires NamesOk(s.proposals, s.nextId)
    ensures ProposalId(s.nextId) !in s.proposals
  {
    if ProposalId(s.nextId) in s.proposals {
      var n: nat :| n < s.nextId && ProposalId(s.nextId) == ProposalId(n);
      ProposalIdIsInjective(n, s.nextId);
    }
  }

  lemma StoreKeepsNames(s: Sys, current: LiveAuthorityState, after: LiveAuthorityState, change: AuthorityChange, d: nat)
    requires NamesOk(s.proposals, s.nextId)
    ensures var t := StoreProposal(s, current, after, change, d).0;
            NamesOk(t.proposals, t.nextId) && ProposalsGrow(s, t) && ProposalId(s.nextId) in t.proposals
            && t.proposals.Keys == s.proposals.Keys + {ProposalId(s.nextId)}
            && t == s.(proposals := t.proposals, nextId := s.nextId + 1)
            && t.proposals[ProposalId(s.nextId)] ==
               StoredProposal(ProposalId(s.nextId), change, current.view, after.view, current.revision, s.fingerprint, d,
                              Pending, None, None)
  {
    hide ProposalId;
    FreshName(s);
    var t := StoreProposal(s, current, after, change, d).0;
    forall id | id in t.proposals
      ensures t.proposals[id].id == id && exists n: nat :: n < t.nextId && id == ProposalId(n)
    {
      if id in s.proposals {
        var n: nat :| n < s.nextId && id == ProposalId(n);
        assert n < t.nextId;
      }
    }
  }

  /** Changing the status of a stored proposal. */
  lemma StatusKeepsInv(g: Global, id: string, p: StoredProposal, t: nat)
    requires Inv(g) && id in g.sys.proposals && SameProposal(p, g.sys.proposals[id])
    ensures Inv(Without(g.(sys := g.sys.(proposals := g.sys.proposals[id := p])), t))
  {
    hide ProposalOk, TaskOk, OwnerOk, LogOk, Stores, StateAt, BasesOk;
    var h := Without(g.(sys := g.sys.(proposals := g.sys.proposals[id := p])), t);
    assert NamesOk(h.sys.proposals, h.sys.nextId);
    QuietStep(g, h);
  }

  lemma TaskStepKeepsInv(g: Global, t: nat, task: Task)
    requires Inv(g)
    ensures Inv(Without(g, t))
    ensures TaskOk(g.sys, g.log, task) ==> Inv(With(g, t, task))
  {
    hide ProposalOk, TaskOk, OwnerOk, LogOk, Stores, StateAt, BasesOk, NamesOk;
  }

  lemma StartKeepsInv(g: Global, a: Action)
    requires Inv(g) && (a.StartPropose? || a.StartApprove? || a.StartReject? || a.StartApply? || a.StartBatch?)
    ensures Inv(Next(g, a))
  {
    hide ProposalOk, OwnerOk, LogOk, Stores, BasesOk, NamesOk, Meaning;
    match a {
      case StartPropose(t, change, d) =>
        RevisionIsPosition(g.log, |g.log|);
        TaskStepKeepsInv(g, t, ProposeRead(g.sys.authority, change, d));
      case StartApprove(t, id) =>
        if id in g.sys.proposals {
          NameOf(g.sys, id);
          TaskStepKeepsInv(g, t, ApproveChecked(g.sys.proposals[id]));
        }
      case StartReject(t, id, reason) =>
        TaskStepKeepsInv(g, t, RejectChecked(id, reason));
      case StartApply(t, id, approval) =>
        if id in g.sys.proposals {
          NameOf(g.sys, id);
          TaskStepKeepsInv(g, t, ApplyLoaded(g.sys.proposals[id], approval));
        }
      case StartBatch(t, ids) =>
        TaskStepKeepsInv(g, t, BatchLoading(ids, []));
    }
  }

  lemma LoadKeepsInv(g: Global, t: nat)
    requires Inv(g) && t in g.tasks && g.tasks[t].BatchLoading?
    ensures Inv(Next(g, LoadNext(t)))
  {
    hide ProposalOk, OwnerOk, LogOk, Stores, BasesOk, NamesOk, Meaning, StateAt, Copied;
    var ids, stored := g.tasks[t].ids, g.tasks[t].stored;
    assert TaskOk(g.sys, g.log, g.tasks[t]);
    if |stored| == |ids| {
      TaskStepKeepsInv(g, t, BatchLoaded(stored));
    } else if ids[|stored|] in g.sys.proposals {
      var p := g.sys.proposals[ids[|stored|]];
      NameOf(g.sys, ids[|stored|]);
      assert Copied(g.sys, p) by { StoredIsCopied(g.sys, ids[|stored|]); }
      TaskStepKeepsInv(g, t, BatchLoading(ids, stored + [p]));
    } else {
      TaskStepKeepsInv(g, t, g.tasks[t]);
    }
  }

  lemma StoredIsCopied(s: Sys, id: string)
    requires id in s.proposals && s.proposals[id].id == id
    ensures Copied(s, s.proposals[id])
  {
  }

  lemma NameOf(s: Sys, id: string)
    requires NamesOk(s.proposals, s.nextId) && id in s.proposals
    ensures s.proposals[id].id == id
  {
  }

  lemma FinishProposeKeepsInv(g: Global, t: nat)
    requires Inv(g) && t in g.tasks && g.tasks[t].ProposeReady?
    ensures Inv(Next(g, FinishPropose(t)))
  {
    hide TaskOk, OwnerOk, LogOk, Stores, BasesOk, NamesOk, Meaning, ProposalsGrow, StoreProposal, StateAt;
    var task := g.tasks[t];
    assert TaskOk(g.sys, g.log, task);
    TaskMeans(g, t);
    var h := Next(g, FinishPropose(t));
    StoreKeepsNames(g.sys, task.current, task.after, task.change, task.discoveryRevision);
    QuietStep(g, h);
  }

  lemma TaskMeans(g: Global, t: nat)
    requires Inv(g) && t in g.tasks && g.tasks[t].ProposeReady?
    ensures var task := g.tasks[t];
            WasState(g.log, task.current) && Meaning(g.log, task.current.revision, task.change) == Some(task.after.view)
  {
    assert TaskOk(g.sys, g.log, g.tasks[t]);
  }

  lemma ContinueKeepsInv(g: Global, a: Action)
    requires Inv(g)
    requires a.PreviewPropose? || a.VerifyApprove? || a.FinishApprove? || a.FinishReject? || a.VerifyApply?
    ensures Inv(Next(g, a))
  {
    hide ProposalOk, OwnerOk, LogOk, Stores, BasesOk, NamesOk, Meaning, StateAt, Preview, Staleness;
    if a.t in g.tasks {
      var t, task := a.t, g.tasks[a.t];
      assert TaskOk(g.sys, g.log, task);
      match (a, task) {
        case (PreviewPropose(_), ProposeRead(current, change, d)) =>
          var after := Preview(current, change, g.sys.changes);
          if after.Ok? {
            StoredIsSeen(g.sys.changes, g.log);
            RevisionIsPosition(g.log, current.revision);
            PreviewMeans(g.log, g.sys.changes, current.revision, change);
            TaskStepKeepsInv(g, t, ProposeReady(current, after.value, change, d));
          } else {
            TaskStepKeepsInv(g, t, task);
          }
        case (VerifyApprove(_), ApproveChecked(p)) => TaskStepKeepsInv(g, t, ApproveVerified(p.id));
        case (FinishApprove(_), ApproveVerified(id)) =>
          StatusKeepsInv(g, id, g.sys.proposals[id].(status := Approved), t);
        case (FinishReject(_), RejectChecked(id, reason)) =>
          StatusKeepsInv(g, id, g.sys.proposals[id].(status := Rejected, rejectionReason := Some(reason)), t);
        case (VerifyApply(_), ApplyLoaded(p, approval)) => TaskStepKeepsInv(g, t, ApplyVerified(p, approval));
        case _ =>
      }
    }
  }

  // ----- Commits ----------------------------------------------------------------------------------

  /** A proposal whose revision is the live one can always be carried out, and leads where it showed. */
  lemma CurrentProposalPreviews(g: Global, p: StoredProposal)
    requires Inv(g) && Copied(g.sys, p) && p.revision == g.sys.authority.revision
    ensures Preview(g.sys.authority, p.change, g.sys.changes) == Ok(LiveAuthorityState(p.after, |g.log| + 1))
    ensures g.sys.authority.view == p.before && p.revision == |g.log|
  {
    hide Preview, Stores, OwnerOk, TaskOk, BasesOk, NamesOk, LogOk;
    RevisionIsPosition(g.log, |g.log|);
    assert ProposalOk(g.log, g.sys.proposals[p.id]);
    MeaningIsPossible(g.log, g.sys.changes, p.change);
  }

  lemma MeaningIsPossible(log: seq<ChangeRecord>, changes: map<string, ChangeRecord>, change: AuthorityChange)
    requires LogOk(log) && Stores(changes, log) && Meaning(log, |log|, change).Some?
    ensures Preview(StateAt(log, |log|), change, changes) ==
            Ok(LiveAuthorityState(Meaning(log, |log|, change).value, |log| + 1))
  {
    RevisionIsPosition(log, |log|);
    StoredIsSeen(changes, log);
    if change.Revert? {
      var j := IndexOf(log[..|log|], change.changeId);
      assert j.value < |log[..|log|]| && log[j.value].changeId == change.changeId;
      GuardNeverRejects(log, changes, change.changeId);
    }
    PreviewMeans(log, changes, |log|, change);
  }

  lemma BaseAdded(bases: seq<nat>, base: nat, revision: nat)
    requires BasesOk(bases, base) && base < revision
    ensures BasesOk(bases + [base], revision)
  {
    var longer := bases + [base];
    forall b | b in longer ensures b < revision {
      assert b in bases || b == base;
    }
    forall i, j | 0 <= i < j < |longer| ensures longer[i] < longer[j] {
      assert longer[i] == bases[i] && bases[i] in bases;
    }
  }

  lemma CommitKeepsInv(g: Global, t: nat, millis: nat)
    requires Inv(g) && t in g.tasks && g.tasks[t].ApplyVerified?
    ensures Inv(Next(g, CommitApply(t, millis)))
  {
    hide Preview, LogOk, Stores, Meaning, StateAt, NamesOk, BasesOk, ProposalOk, EndsInRevision;
    var p, s, log := g.tasks[t].proposal, g.sys, g.log;
    assert TaskOk(s, log, g.tasks[t]);
    if p.revision != s.authority.revision {
      TaskStepKeepsInv(g, t, g.tasks[t]);
    } else {
      CurrentProposalPreviews(g, p);
      var next := LiveAuthorityState(p.after, |log| + 1);
      var id := ChangeId(millis, None, |log| + 1);
      var record := RecordFor(id, p.id, p.change, s.authority, next);
      assert EndsInRevision(id, |log| + 1) by { IdEnds(millis, None, |log| + 1); }
      StoredIsSeen(s.changes, log);
      PushKeepsLog(log, s.changes, record);
      PushKeepsStores(log, s.changes, record);
      var h := Next(g, CommitApply(t, millis));
      assert h.sys == Flush(s.(authority := next), record) && h.log == log + [record];
      LastState(log, record);
      BaseAdded(g.bases, |log|, |log| + 1);
      FlushKeepsProposals(s.(authority := next), record);
      InvGrows(g, h, [record], [|log|]);
    }
  }

  lemma IdEnds(millis: nat, index: Option<nat>, revision: nat)
    ensures EndsInRevision(ChangeId(millis, index, revision), revision)
  {
  }

  lemma LastState(log: seq<ChangeRecord>, record: ChangeRecord)
    ensures StateAt(log + [record], |log| + 1) == record.resulting
  {
  }

  lemma FlushKeepsProposals(s: Sys, record: ChangeRecord)
    requires NamesOk(s.proposals, s.nextId) && record.proposalId in s.proposals
    ensures var t := Flush(s, record);
            NamesOk(t.proposals, t.nextId) && ProposalsGrow(s, t) && t.proposals.Keys == s.proposals.Keys
            && t.authority == s.authority && t.changes == s.changes[record.changeId := record]
            && t.fingerprint == s.fingerprint && t.nextId == s.nextId
  {
  }

  lemma SeesMore(seen: map<string, ChangeRecord>, log: seq<ChangeRecord>, more: seq<ChangeRecord>)
    requires SeesOnly(seen, log)
    ensures SeesOnly(seen, log + more)
  {
    forall id | id in seen ensures exists k :: 0 <= k < |log + more| && (log + more)[k] == seen[id] && (log + more)[k].changeId == id {
      var k :| 0 <= k < |log| && log[k] == seen[id] && log[k].changeId == id;
      assert (log + more)[k] == log[k];
    }
  }

  /** One record for each proposal, in order, all proposed at the revision the batch started from. */
  ghost predicate RecordsOf(records: seq<ChangeRecord>, stored: seq<StoredProposal>, base: nat) {
    && |records| == |stored|
    && forall i :: 0 <= i < |records| ==> RecordIsOf(records[i], stored[i], base)
  }

  ghost predicate RecordIsOf(r: ChangeRecord, p: StoredProposal, base: nat) {
    r.proposalId == p.id && r.change == p.change && p.revision == base
  }

  /** Planning a batch extends the log in order, one record for each proposal. */
  lemma {:induction false} PlanExtends(s: Sys, log: seq<ChangeRecord>, stored: seq<StoredProposal>, time: nat -> nat, n: nat)
    requires LogOk(log) && SeesOnly(s.changes, log) && s.authority == StateAt(log, |log|)
    requires n <= |stored| && Plan(s, stored, time, n).Ok?
    ensures var (next, records) := Plan(s, stored, time, n).value;
            && LogOk(log + records) && |records| == n && next == StateAt(log + records, |log| + n)
            && RecordsOf(records, stored[..n], s.authority.revision)
  {
    hide Preview, Meaning, SeesOnly, LogOk, EndsInRevision, ChangeId;
    if n == 0 {
      assert log + [] == log;
    } else {
      PlanExtends(s, log, stored, time, n - 1);
      var (before, records) := Plan(s, stored, time, n - 1).value;
      var (next, longer) := Plan(s, stored, time, n).value;
      var sofar, record := log + records, longer[n - 1];
      SeesMore(s.changes, log, records);
      RevisionIsPosition(sofar, |sofar|);
      PreviewMeans(sofar, s.changes, |sofar|, record.change);
      IdEnds(time(n - 1), Some(n - 1), next.revision);
      PushKeepsLog(sofar, s.changes, record);
      assert log + longer == sofar + [record];
      LastState(sofar, record);
    }
  }

  lemma LogPrefix(log: seq<ChangeRecord>, n: nat)
    requires LogOk(log) && n <= |log|
    ensures LogOk(log[..n])
  {
    hide Meaning, StateAt, EndsInRevision;
    assert log[..n] + log[n..] == log;
    forall k | 0 <= k < n ensures RecordOk(log[..n], k) {
      assert RecordOk(log, k);
      PastIsFixed(log[..n], log[n..], k, log[k].change);
    }
  }

  /** Flushing the planned records stores them all and disturbs nothing else. */
  lemma {:induction false} FlushAllKeeps(s: Sys, log: seq<ChangeRecord>, records: seq<ChangeRecord>)
    requires Known(s, records)
    requires Stores(s.changes, log) && LogOk(log + records) && NamesOk(s.proposals, s.nextId)
    ensures var t := FlushAll(s, records);
            && Stores(t.changes, log + records) && NamesOk(t.proposals, t.nextId) && ProposalsGrow(s, t)
            && t.authority == s.authority && t.nextId == s.nextId && t.fingerprint == s.fingerprint
  {
    hide LogOk, Stores, NamesOk;
    if records == [] {
      assert log + records == log;
    } else {
      var init, record := records[..|records| - 1], records[|records| - 1];
      assert record in records && log + records == (log + init) + [record];
      assert (log + records)[..|log + init|] == log + init;
      LogPrefix(log + records, |log + init|);
      FlushAllKeeps(s, log, init);
      FreshChangeId(log + init, record);
      PushKeepsStores(log + init, FlushAll(s, init).changes, record);
      FlushKeepsProposals(FlushAll(s, init), record);
    }
  }

  lemma FreshChangeId(log: seq<ChangeRecord>, record: ChangeRecord)
    requires LogOk(log + [record])
    ensures forall k :: 0 <= k < |log| ==> log[k].changeId != record.changeId
  {
    hide LogOk;
    var longer := log + [record];
    forall k | 0 <= k < |log| ensures log[k].changeId != record.changeId {
      assert longer[k] == log[k] && longer[|log|] == record;
      if log[k].changeId == record.changeId {
        RevisionsSeparate(longer, k, |log|);
      }
    }
  }

  /** What a successful batch does. */
  lemma BatchCommits(s: Sys, log: seq<ChangeRecord>, stored: seq<StoredProposal>, time: nat -> nat)
    requires LogOk(log) && Stores(s.changes, log) && s.authority == StateAt(log, |log|)
    requires forall p <- stored :: p.id in s.proposals
    requires Plan(s, stored, time, |stored|).Ok?
    ensures var (next, records) := Plan(s, stored, time, |stored|).value;
            && Known(s, records)
            && CommitBatch(s, stored, time) == (FlushAll(s.(authority := next), records), Ok(records))
            && LogOk(log + records) && next == StateAt(log + records, |log + records|)
            && RecordsOf(records, stored, |log|)
  {
    hide Plan, LogOk, Stores, FlushAll;
    StoredIsSeen(s.changes, log);
    PlanExtends(s, log, stored, time, |stored|);
    RevisionIsPosition(log, |log|);
    assert stored[..|stored|] == stored;
    var (next, records) := Plan(s, stored, time, |stored|).value;
    forall r | r in records ensures r.proposalId in s.proposals {
      var i :| 0 <= i < |records| && records[i] == r;
      assert RecordIsOf(records[i], stored[i], |log|) && stored[i] in stored;
    }
  }

  lemma BatchOwners(g: Global, h: Global, stored: seq<StoredProposal>, records: seq<ChangeRecord>)
    requires h.log == g.log + records && RecordsOf(records, stored, |g.log|) && h.bases == g.bases + [|g.log|]
    requires ProposalsGrow(g.sys, h.sys) && forall p <- stored :: Copied(g.sys, p)
    ensures forall k :: |g.log| <= k < |h.log| ==> OwnerOk(h.sys, h.log, h.bases, k)
  {
    assert h.bases[|g.bases|] == |g.log|;
    forall k | |g.log| <= k < |h.log| ensures OwnerOk(h.sys, h.log, h.bases, k) {
      var p := stored[k - |g.log|];
      assert h.log[k] == records[k - |g.log|] && p in stored && RecordIsOf(records[k - |g.log|], p, |g.log|);
      assert SameProposal(h.sys.proposals[p.id], g.sys.proposals[p.id]);
    }
  }

  lemma BatchKeepsInv(g: Global, t: nat, time: nat -> nat)
    requires Inv(g) && t in g.tasks && g.tasks[t].BatchLoaded?
    ensures Inv(Next(g, CommitBatchOf(t, time)))
  {
    hide Plan, LogOk, Stores, ProposalOk, NamesOk, BasesOk, FlushAll, StateAt, OwnerOk;
    var stored, s := g.tasks[t].stored, g.sys;
    assert TaskOk(s, g.log, g.tasks[t]);
    if Plan(s, stored, time, |stored|).Err? {
      TaskStepKeepsInv(g, t, g.tasks[t]);
    } else {
      BatchCommits(s, g.log, stored, time);
      var (next, records) := Plan(s, stored, time, |stored|).value;
      var h := Next(g, CommitBatchOf(t, time));
      FlushAllKeeps(s.(authority := next), g.log, records);
      BaseAdded(g.bases, |g.log|, |h.log|);
      RevisionIsPosition(g.log, |g.log|);
      BatchOwners(g, h, stored, records);
      InvGrows(g, h, records, [|g.log|]);
    }
  }

  /** The invariant holds in every state of every schedule. */
  lemma {:induction false} EveryScheduleKeepsInv(states: seq<Global>, actions: seq<Action>, n: nat)
    requires IsRun(states, actions) && n < |states|
    ensures Inv(states[n])
  {
    hide Next, Inv;
    if n == 0 {
      InitialHasInv(states[0]);
    } else {
      EveryScheduleKeepsInv(states, actions, n - 1);
      StepKeepsInv(states[n - 1], actions[n - 1]);
    }
  }

  lemma InitialHasInv(g: Global)
    requires Initial(g)
    ensures Inv(g)
  {
  }

  lemma StepKeepsInv(g: Global, a: Action)
    requires Inv(g)
    ensures Inv(Next(g, a))
  {
    hide Inv, CommitStep, CommitBatchStep;
    match a {
      case FinishPropose(t) =>
        if t in g.tasks && g.tasks[t].ProposeReady? { FinishProposeKeepsInv(g, t); }
      case CommitApply(t, millis) =>
        if t in g.tasks && g.tasks[t].ApplyVerified? { CommitKeepsInv(g, t, millis); }
      case CommitBatchOf(t, time) =>
        if t in g.tasks && g.tasks[t].BatchLoaded? { BatchKeepsInv(g, t, time); }
      case LoadNext(t) =>
        if t in g.tasks && g.tasks[t].BatchLoading? { LoadKeepsInv(g, t); }
      case StartPropose(_, _, _) => StartKeepsInv(g, a);
      case StartApprove(_, _) => StartKeepsInv(g, a);
      case StartReject(_, _, _) => StartKeepsInv(g, a);
      case StartApply(_, _, _) => StartKeepsInv(g, a);
      case StartBatch(_, _) => StartKeepsInv(g, a);
      case _ => ContinueKeepsInv(g, a);
    }
  }
}
