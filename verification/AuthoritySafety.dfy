/** What every schedule of proposals, approvals and commits guarantees. */
module AuthoritySafety {
  import opened Prelude
  import opened Authority
  import opened AuthorityLog
  import opened Interleaving

  // ----- Linear history -------------------------------------------------------------------------

  /** The change records form one unbroken chain from the initial state to the live state, one revision per
      record, and the store holds exactly these records. */
  lemma HistoryIsLinear(states: seq<Global>, actions: seq<Action>, n: nat)
    requires IsRun(states, actions) && n < |states|
    ensures var g := states[n];
            && g.sys.authority.revision == |g.log|
            && (|g.log| == 0 ==> g.sys.authority == INITIAL)
            && (|g.log| > 0 ==> g.log[0].previous == INITIAL && g.sys.authority == g.log[|g.log| - 1].resulting)
            && (forall k :: 0 < k < |g.log| ==> g.log[k].previous == g.log[k - 1].resulting)
            && (forall k :: 0 <= k < |g.log| ==> g.log[k].resulting.revision == g.log[k].previous.revision + 1 == k + 1)
            && g.sys.authority.view == Replay(g.log, |g.log|)
            && Stores(g.sys.changes, g.log)
  {
    hide Next, Inv, StateAt, Replay, Stores, LogOk;
    EveryScheduleKeepsInv(states, actions, n);
    InvLog(states[n]);
    AuthorityIsLast(states[n]);
    LogIsChain(states[n].log);
    SnapshotsAreReplays(states[n].log, |states[n].log|);
  }

  lemma LogIsChain(log: seq<ChangeRecord>)
    requires LogOk(log)
    ensures StateAt(log, |log|) == if |log| == 0 then INITIAL else log[|log| - 1].resulting
    ensures |log| > 0 ==> log[0].previous == INITIAL
    ensures forall k :: 0 < k < |log| ==> log[k].previous == log[k - 1].resulting
    ensures forall k :: 0 <= k < |log| ==> log[k].resulting.revision == log[k].previous.revision + 1 == k + 1
  {
    hide Meaning, EndsInRevision;
    forall k | 0 <= k < |log|
      ensures log[k].previous == StateAt(log, k) && log[k].resulting.revision == log[k].previous.revision + 1 == k + 1
    {
      assert RecordOk(log, k);
      RevisionIsPosition(log, k);
    }
  }

  lemma StepExtendsLog(g: Global, a: Action)
    ensures g.log <= Next(g, a).log
  {
    hide CommitOne, CommitBatch, Staleness, BatchRefusal, Preview, StoreProposal, StoredOf;
  }

  lemma {:induction false} LogsExtend(states: seq<Global>, actions: seq<Action>, i: nat, j: nat)
    requires IsRun(states, actions) && i <= j < |states|
    ensures states[i].log <= states[j].log
  {
    hide Next;
    if i < j {
      LogsExtend(states, actions, i, j - 1);
      StepExtendsLog(states[j - 1], actions[j - 1]);
    }
  }

  /** No revision is ever used for two different states. */
  lemma EqualRevisionsMeanEqualStates(states: seq<Global>, actions: seq<Action>, i: nat, j: nat)
    requires IsRun(states, actions) && i <= j < |states|
    requires states[i].sys.authority.revision == states[j].sys.authority.revision
    ensures states[i].sys.authority == states[j].sys.authority
  {
    hide Next, Inv;
    EveryScheduleKeepsInv(states, actions, i);
    EveryScheduleKeepsInv(states, actions, j);
    AuthorityIsLast(states[i]);
    AuthorityIsLast(states[j]);
    LogsExtend(states, actions, i, j);
    assert states[i].log == states[j].log;
  }

  lemma AuthorityIsLast(g: Global)
    requires Inv(g)
    ensures g.sys.authority == StateAt(g.log, |g.log|) && g.sys.authority.revision == |g.log|
  {
    RevisionIsPosition(g.log, |g.log|);
  }

  // ----- Previews are honoured --------------------------------------------------------------------

  /** Under any schedule an apply that has passed its checks commits exactly when the revision is still the
      one it was proposed at, and then leads from the shown `before` to the shown `after`. */
  lemma AppliedAsPreviewed(states: seq<Global>, actions: seq<Action>, n: nat)
    requires IsRun(states, actions) && n < |actions| && actions[n].CommitApply?
    requires actions[n].t in states[n].tasks && states[n].tasks[actions[n].t].ApplyVerified?
    ensures var (g, h) := (states[n], states[n + 1]);
            var id := g.tasks[actions[n].t].proposal.id;
            && id in g.sys.proposals
            && var shown := g.sys.proposals[id];
               if shown.revision == g.sys.authority.revision then
                 && |h.log| == |g.log| + 1 && h.log == g.log + [h.log[|g.log|]] && h.log[|g.log|].proposalId == id
                 && g.sys.authority.view == shown.before && h.sys.authority.view == shown.after
                 && h.sys.authority.revision == g.sys.authority.revision + 1
                 && h.sys.proposals[id].status == Applied
               else h.sys == g.sys && h.log == g.log
  {
    hide LogOk, Stores, StateAt, NamesOk, BasesOk, ProposalOk, OwnerOk, Preview, ChangeId;
    EveryScheduleKeepsInv(states, actions, n);
    var g := states[n];
    var task := g.tasks[actions[n].t];
    assert TaskOk(g.sys, g.log, task);
    if task.proposal.revision == g.sys.authority.revision {
      CurrentProposalPreviews(g, task.proposal);
      AuthorityIsLast(g);
    }
  }

  /** The same, for a call that runs undisturbed from any reachable state. */
  lemma ApplyStoredShowsPreview(g: Global, id: string, approval: Approval, millis: nat)
    requires Inv(g)
    ensures var (s, r) := ApplyStored(g.sys, id, approval, millis);
            if && id in g.sys.proposals && g.sys.proposals[id].status == Approved
               && g.sys.proposals[id].fingerprint == g.sys.fingerprint
               && g.sys.proposals[id].revision == g.sys.authority.revision
               && approval.token == g.sys.proposals[id].change
            then
              && r == Ok((ChangeId(millis, None, g.sys.authority.revision + 1), g.sys.authority.revision + 1))
              && g.sys.authority.view == g.sys.proposals[id].before
              && s.authority == LiveAuthorityState(g.sys.proposals[id].after, g.sys.authority.revision + 1)
            else r.Err? && s == g.sys
  {
    hide LogOk, Stores, StateAt, BasesOk, ProposalOk, OwnerOk, TaskOk, Preview, ChangeId;
    if id in g.sys.proposals {
      NameOf(g.sys, id);
      AuthorityIsLast(g);
      if g.sys.proposals[id].revision == g.sys.authority.revision {
        CurrentProposalPreviews(g, g.sys.proposals[id]);
      }
    }
  }

  // ----- One commit per revision ------------------------------------------------------------------

  /** Every commit, single or batch, starts from a revision of its own, and every applied proposal was made
      at the revision of its commit. */
  lemma OneCommitPerRevision(states: seq<Global>, actions: seq<Action>, n: nat)
    requires IsRun(states, actions) && n < |states|
    ensures var g := states[n];
            && (forall i, j :: 0 <= i < j < |g.bases| ==> g.bases[i] < g.bases[j])
            && (forall b <- g.bases :: b < g.sys.authority.revision)
            && (forall k :: 0 <= k < |g.log| ==>
                  g.log[k].proposalId in g.sys.proposals && g.sys.proposals[g.log[k].proposalId].revision in g.bases)
  {
    hide LogOk, Stores, ProposalOk, TaskOk, Next, NamesOk;
    EveryScheduleKeepsInv(states, actions, n);
    var g := states[n];
    AuthorityIsLast(g);
    forall k | 0 <= k < |g.log|
      ensures g.log[k].proposalId in g.sys.proposals && g.sys.proposals[g.log[k].proposalId].revision in g.bases
    {
      assert OwnerOk(g.sys, g.log, g.bases, k);
    }
  }

  ghost predicate DistinctIds(stored: seq<StoredProposal>) {
    forall i, j :: 0 <= i < j < |stored| ==> stored[i].id != stored[j].id
  }

  ghost predicate NoneTwice(log: seq<ChangeRecord>) {
    forall i, j :: 0 <= i < j < |log| ==> log[i].proposalId != log[j].proposalId
  }

  ghost predicate Once(g: Global) {
    NoneTwice(g.log) && forall t <- g.tasks :: ListsOnce(g.tasks[t])
  }

  ghost predicate ListsOnce(task: Task) {
    && (task.BatchLoading? ==> Distinct(task.ids))
    && (task.BatchLoaded? ==> DistinctIds(task.stored))
  }

  /** A commit adds records of proposals that have none yet: those recorded were made at older revisions. */
  lemma NewRecordsAreOfNewProposals(g: Global, records: seq<ChangeRecord>, stored: seq<StoredProposal>)
    requires Inv(g) && RecordsOf(records, stored, |g.log|) && forall p <- stored :: Copied(g.sys, p)
    ensures forall k, m :: 0 <= k < |g.log| && 0 <= m < |records| ==> g.log[k].proposalId != records[m].proposalId
  {
    hide LogOk, Stores, ProposalOk, TaskOk, NamesOk, BasesOk, StateAt;
    forall k, m | 0 <= k < |g.log| && 0 <= m < |records| ensures g.log[k].proposalId != records[m].proposalId {
      assert OwnerOk(g.sys, g.log, g.bases, k);
      assert RecordIsOf(records[m], stored[m], |g.log|) && stored[m] in stored;
      assert SameProposal(g.sys.proposals[stored[m].id], stored[m]);
    }
  }

  lemma RecordIds(records: seq<ChangeRecord>, stored: seq<StoredProposal>, base: nat)
    requires RecordsOf(records, stored, base)
    ensures NoneTwice(records) <==> DistinctIds(stored)
  {
    forall m | 0 <= m < |records| ensures records[m].proposalId == stored[m].id {
      assert RecordIsOf(records[m], stored[m], base);
    }
    if NoneTwice(records) {
      forall i, j | 0 <= i < j < |stored| ensures stored[i].id != stored[j].id {
        assert records[i].proposalId != records[j].proposalId;
      }
    }
  }

  lemma NoneTwiceJoins(log: seq<ChangeRecord>, records: seq<ChangeRecord>)
    requires forall k, m :: 0 <= k < |log| && 0 <= m < |records| ==> log[k].proposalId != records[m].proposalId
    ensures NoneTwice(log + records) <==> NoneTwice(log) && NoneTwice(records)
  {
    var longer := log + records;
    assert forall k :: 0 <= k < |log| ==> longer[k] == log[k];
    assert forall m :: 0 <= m < |records| ==> longer[|log| + m] == records[m];
    if NoneTwice(log) && NoneTwice(records) {
      forall i, j | 0 <= i < j < |longer| ensures longer[i].proposalId != longer[j].proposalId {
        if i < |log| <= j {
          assert longer[i] == log[i] && longer[j] == records[j - |log|];
        } else if |log| <= i {
          assert longer[i] == records[i - |log|] && longer[j] == records[j - |log|];
        }
      }
    }
    if NoneTwice(longer) {
      forall i, j | 0 <= i < j < |records| ensures records[i].proposalId != records[j].proposalId {
        assert longer[|log| + i].proposalId != longer[|log| + j].proposalId;
      }
    }
  }

  /** The step commits a batch that lists a proposal twice. */
  ghost predicate RepeatsOne(g: Global, a: Action) {
    && a.CommitBatchOf? && a.t in g.tasks && g.tasks[a.t].BatchLoaded?
    && |Next(g, a).log| > |g.log| && !DistinctIds(g.tasks[a.t].stored)
  }

  lemma CommitAppliesOnce(g: Global, t: nat, millis: nat)
    requires Inv(g) && t in g.tasks && g.tasks[t].ApplyVerified?
    ensures NoneTwice(CommitStep(g, g.tasks[t], millis).log) <==> NoneTwice(g.log)
  {
    hide LogOk, Stores, StateAt, NamesOk, BasesOk, ProposalOk, OwnerOk, Preview, ChangeId;
    var p, h := g.tasks[t].proposal, CommitStep(g, g.tasks[t], millis);
    assert TaskOk(g.sys, g.log, g.tasks[t]);
    if p.revision == g.sys.authority.revision {
      CurrentProposalPreviews(g, p);
      var record := h.log[|g.log|];
      assert RecordIsOf(record, p, |g.log|);
      NewRecordsAreOfNewProposals(g, [record], [p]);
      NoneTwiceJoins(g.log, [record]);
    }
  }

  lemma BatchAppliesOnce(g: Global, t: nat, time: nat -> nat)
    requires Inv(g) && t in g.tasks && g.tasks[t].BatchLoaded?
    ensures var h := CommitBatchStep(g, g.tasks[t].stored, time);
            NoneTwice(h.log) <==> NoneTwice(g.log) && (|h.log| > |g.log| ==> DistinctIds(g.tasks[t].stored))
  {
    hide LogOk, Stores, StateAt, NamesOk, BasesOk, ProposalOk, OwnerOk, Plan, FlushAll, NoneTwice, DistinctIds;
    var stored := g.tasks[t].stored;
    assert TaskOk(g.sys, g.log, g.tasks[t]);
    if Plan(g.sys, stored, time, |stored|).Ok? {
      BatchCommits(g.sys, g.log, stored, time);
      var records := Plan(g.sys, stored, time, |stored|).value.1;
      NewRecordsAreOfNewProposals(g, records, stored);
      RecordIds(records, stored, |g.log|);
      NoneTwiceJoins(g.log, records);
    }
  }

  lemma StepAppliesOnce(g: Global, a: Action)
    requires Inv(g)
    ensures NoneTwice(Next(g, a).log) <==> NoneTwice(g.log) && !RepeatsOne(g, a)
  {
    hide Inv, NoneTwice, DistinctIds, CommitOne, CommitBatch, Preview, Staleness, StoreProposal;
    if a.CommitApply? && a.t in g.tasks && g.tasks[a.t].ApplyVerified? {
      CommitAppliesOnce(g, a.t, a.millis);
    } else if a.CommitBatchOf? && a.t in g.tasks && g.tasks[a.t].BatchLoaded? {
      BatchAppliesOnce(g, a.t, a.time);
    }
  }

  /** Under every schedule no proposal has two change records exactly when no committed batch listed a proposal
      twice. */
  lemma {:induction false} AppliedOnceExactly(states: seq<Global>, actions: seq<Action>, n: nat)
    requires IsRun(states, actions) && n < |states|
    ensures NoneTwice(states[n].log) <==> forall i :: 0 <= i < n ==> !RepeatsOne(states[i], actions[i])
  {
    hide Next, Inv, RepeatsOne;
    if n > 0 {
      AppliedOnceExactly(states, actions, n - 1);
      EveryScheduleKeepsInv(states, actions, n - 1);
      StepAppliesOnce(states[n - 1], actions[n - 1]);
    }
  }

  /** A batch that goes through gives no proposal two records exactly when its list names none twice. */
  lemma BatchAppliesOnceExactly(g: Global, ids: seq<string>, time: nat -> nat)
    requires Inv(g) && ids != [] && ApplyBatch(g.sys, ids, time).1.Ok?
    ensures NoneTwice(ApplyBatch(g.sys, ids, time).1.value) <==> Distinct(ids)
  {
    hide Inv, Plan, FlushAll, NoneTwice, DistinctIds, Distinct, BatchRefusal, StoredOf;
    InvLog(g);
    AcceptedBatch(g.sys, ids, time);
    var stored := StoredOf(g.sys, ids);
    BatchCommits(g.sys, g.log, stored, time);
    RecordIds(ApplyBatch(g.sys, ids, time).1.value, stored, |g.log|);
    DistinctStored(g.sys, ids);
  }

  lemma AcceptedBatch(s: Sys, ids: seq<string>, time: nat -> nat)
    requires NamesOk(s.proposals, s.nextId) && ids != [] && ApplyBatch(s, ids, time).1.Ok?
    ensures forall id <- ids :: id in s.proposals
    ensures ApplyBatch(s, ids, time) == CommitBatch(s, StoredOf(s, ids), time)
    ensures Plan(s, StoredOf(s, ids), time, |ids|).Ok? && forall p <- StoredOf(s, ids) :: p.id in s.proposals
  {
    hide Plan, FlushAll;
    var stored := StoredOf(s, ids);
    forall p | p in stored ensures p.id in s.proposals {
      var i :| 0 <= i < |stored| && stored[i] == p;
      NameOf(s, ids[i]);
    }
  }

  lemma DistinctStored(s: Sys, ids: seq<string>)
    requires NamesOk(s.proposals, s.nextId) && forall id <- ids :: id in s.proposals
    ensures DistinctIds(StoredOf(s, ids)) <==> Distinct(ids)
  {
    var stored := StoredOf(s, ids);
    forall i | 0 <= i < |ids| ensures stored[i].id == ids[i] {
      NameOf(s, ids[i]);
    }
    if DistinctIds(stored) {
      forall i, j | 0 <= i < j < |ids| ensures ids[i] != ids[j] {
        assert stored[i].id != stored[j].id;
      }
    }
  }

  lemma StepKeepsOnce(g: Global, a: Action)
    requires Inv(g) && Once(g) && (a.StartBatch? ==> Distinct(a.ids))
    ensures Once(Next(g, a))
  {
    hide Inv, NoneTwice, DistinctIds, Distinct, CommitOne, CommitBatch, Preview, Staleness, StoreProposal, LoadStep;
    StepAppliesOnce(g, a);
    if a.CommitBatchOf? && a.t in g.tasks && g.tasks[a.t].BatchLoaded? {
      assert ListsOnce(g.tasks[a.t]);
    } else if a.LoadNext? && a.t in g.tasks && g.tasks[a.t].BatchLoading? {
      LoadKeepsOnce(g, a.t);
    }
  }

  lemma LoadKeepsOnce(g: Global, t: nat)
    requires Inv(g) && Once(g) && t in g.tasks && g.tasks[t].BatchLoading?
    ensures Once(LoadStep(g, t, g.tasks[t].ids, g.tasks[t].stored))
  {
    hide NoneTwice;
    var ids, stored := g.tasks[t].ids, g.tasks[t].stored;
    assert TaskOk(g.sys, g.log, g.tasks[t]) && ListsOnce(g.tasks[t]);
    if |stored| == |ids| {
      assert DistinctIds(stored);
    }
  }

  /** Under any schedule whose batches list distinct ids, no proposal ever gets two change records. */
  lemma {:induction false} NoProposalAppliedTwice(states: seq<Global>, actions: seq<Action>, n: nat)
    requires IsRun(states, actions) && n < |states|
    requires forall i :: 0 <= i < |actions| && actions[i].StartBatch? ==> Distinct(actions[i].ids)
    ensures Once(states[n])
  {
    hide Next, Inv;
    if n > 0 {
      NoProposalAppliedTwice(states, actions, n - 1);
      EveryScheduleKeepsInv(states, actions, n - 1);
      StepKeepsOnce(states[n - 1], actions[n - 1]);
    }
  }

  /** Distinct ids are needed: from any reachable state with an approved current proposal, a batch naming it
      twice succeeds and gives it two records. */
  lemma RepeatedIdIsAppliedTwice(g: Global, id: string, time: nat -> nat)
    requires Inv(g) && id in g.sys.proposals && g.sys.proposals[id].status == Approved
    requires g.sys.proposals[id].fingerprint == g.sys.fingerprint
    requires g.sys.proposals[id].revision == g.sys.authority.revision
    ensures var (s, r) := ApplyBatch(g.sys, [id, id], time);
            r.Ok? && |r.value| == 2 && r.value[0].proposalId == r.value[1].proposalId == id
            && s.authority.revision == g.sys.authority.revision + 2
  {
    hide LogOk, Stores, StateAt, ProposalOk, OwnerOk, TaskOk, BasesOk, ChangeId, FlushAll;
    var p, s := g.sys.proposals[id], g.sys;
    NameOf(s, id);
    CurrentProposalPreviews(g, p);
    var stored := StoredOf(s, [id, id]);
    assert stored == [p, p];
    var next := LiveAuthorityState(p.after, |g.log| + 1);
    AuthorityIsLast(g);
    TwicePreviews(s.authority, next, p.change, s.changes);
    assert Plan(s, stored, time, 0) == Ok((s.authority, []));
    assert Plan(s, stored, time, 1).Ok? && Plan(s, stored, time, 1).value.0 == next;
    assert Plan(s, stored, time, 2).Ok?;
    BatchCommits(s, g.log, stored, time);
    var (last, records) := Plan(s, stored, time, 2).value;
    assert RecordIsOf(records[0], p, |g.log|) && RecordIsOf(records[1], p, |g.log|);
    RevisionIsPosition(g.log + records, |g.log + records|);
    FlushKeepsAuthority(s.(authority := last), records);
  }

  lemma TwicePreviews(current: LiveAuthorityState, next: LiveAuthorityState, change: AuthorityChange, changes: map<string, ChangeRecord>)
    requires Preview(current, change, changes) == Ok(next)
    ensures Preview(next, change, changes).Ok?
  {
  }

  lemma {:induction false} FlushKeepsAuthority(s: Sys, records: seq<ChangeRecord>)
    requires Known(s, records)
    ensures FlushAll(s, records).authority == s.authority
  {
    if records != [] {
      FlushKeepsAuthority(s, records[..|records| - 1]);
    }
  }

  // ----- Batches ----------------------------------------------------------------------------------

  /** Carrying out the changes one after another, each seeing the records of those before it. */
  function OneByOne(s: Sys, stored: seq<StoredProposal>, time: nat -> nat, n: nat): Option<Sys>
    requires n <= |stored|
  {
    if n == 0 then Some(s)
    else match OneByOne(s, stored, time, n - 1)
      case None => None
      case Some(t) =>
        match Preview(t.authority, stored[n - 1].change, t.changes)
        case Err(_) => None
        case Ok(next) =>
          if stored[n - 1].id !in t.proposals then None
          else
            var id := ChangeId(time(n - 1), Some(n - 1), next.revision);
            Some(Flush(t.(authority := next), RecordFor(id, stored[n - 1].id, stored[n - 1].change, t.authority, next)))
  }

  /** A batch that succeeds ends where carrying out its changes one after another ends, records included. */
  lemma BatchIsOneByOne(g: Global, stored: seq<StoredProposal>, time: nat -> nat)
    requires Inv(g) && (forall p <- stored :: p.id in g.sys.proposals)
    requires CommitBatch(g.sys, stored, time).1.Ok?
    ensures OneByOne(g.sys, stored, time, |stored|) == Some(CommitBatch(g.sys, stored, time).0)
  {
    hide Inv, Plan, FlushAll, LogOk, Stores;
    InvLog(g);
    BatchCommits(g.sys, g.log, stored, time);
    PrefixIsOneByOne(g.sys, g.log, stored, time, |stored|);
  }

  lemma InvLog(g: Global)
    requires Inv(g)
    ensures LogOk(g.log) && Stores(g.sys.changes, g.log) && g.sys.authority == StateAt(g.log, |g.log|)
    ensures NamesOk(g.sys.proposals, g.sys.nextId)
  {
  }

  lemma {:induction false} PrefixIsOneByOne(s: Sys, log: seq<ChangeRecord>, stored: seq<StoredProposal>, time: nat -> nat, n: nat)
    requires LogOk(log) && Stores(s.changes, log) && s.authority == StateAt(log, |log|)
    requires NamesOk(s.proposals, s.nextId)
    requires n <= |stored| && Plan(s, stored, time, n).Ok? && Known(s, Plan(s, stored, time, n).value.1)
    requires forall p <- stored :: p.id in s.proposals
    ensures var (next, records) := Plan(s, stored, time, n).value;
            OneByOne(s, stored, time, n) == Some(FlushAll(s.(authority := next), records))
  {
    hide LogOk, Stores, StateAt, ChangeId, NamesOk;
    if n > 0 {
      var (before, records) := Plan(s, stored, time, n - 1).value;
      var (next, longer) := Plan(s, stored, time, n).value;
      StoredIsSeen(s.changes, log);
      PlanExtends(s, log, stored, time, n - 1);
      var record := longer[n - 1];
      assert longer == records + [record] && longer[..|longer| - 1] == records;
      assert forall r <- records :: r in longer;
      PrefixIsOneByOne(s, log, stored, time, n - 1);
      var t := FlushAll(s.(authority := before), records);
      FlushAllKeeps(s.(authority := before), log, records);
      assert stored[n - 1] in stored;
      OldRecordsStay(s.changes, log, t.changes, records, before, stored[n - 1].change);
      FlushAgain(s, before, next, records);
    }
  }

  /** What a preview could look up before, it still finds unchanged afterwards. */
  lemma OldRecordsStay(changes: map<string, ChangeRecord>, log: seq<ChangeRecord>, after: map<string, ChangeRecord>,
                       records: seq<ChangeRecord>, current: LiveAuthorityState, change: AuthorityChange)
    requires Stores(changes, log) && Stores(after, log + records) && Preview(current, change, changes).Ok?
    ensures Preview(current, change, after) == Preview(current, change, changes)
  {
    if change.Revert? {
      var k :| 0 <= k < |log| && log[k].changeId == change.changeId;
      assert (log + records)[k] == log[k];
    }
  }

  lemma {:induction false} FlushAgain(s: Sys, a: LiveAuthorityState, b: LiveAuthorityState, records: seq<ChangeRecord>)
    requires Known(s, records)
    ensures FlushAll(s.(authority := a), records).(authority := b) == FlushAll(s.(authority := b), records)
  {
    if records != [] {
      assert Known(s, records[..|records| - 1]);
      FlushAgain(s, a, b, records[..|records| - 1]);
    }
  }

  /** Whether a change can be previewed does not depend on the content it is applied to. */
  lemma LaterPreviews(a: LiveAuthorityState, b: LiveAuthorityState, change: AuthorityChange, changes: map<string, ChangeRecord>)
    requires a.revision <= b.revision && Preview(a, change, changes).Ok?
    ensures Preview(b, change, changes).Ok? && Preview(b, change, changes).value.revision == b.revision + 1
  {
  }

  ghost predicate AllCurrent(s: Sys, stored: seq<StoredProposal>) {
    forall p <- stored :: p.fingerprint == s.fingerprint && p.revision == s.authority.revision
  }

  lemma {:induction false} PlanSucceedsExactly(g: Global, stored: seq<StoredProposal>, time: nat -> nat, n: nat)
    requires Inv(g) && (forall p <- stored :: Copied(g.sys, p)) && n <= |stored|
    ensures Plan(g.sys, stored, time, n).Ok? <==> AllCurrent(g.sys, stored[..n])
    ensures Plan(g.sys, stored, time, n).Ok? ==> Plan(g.sys, stored, time, n).value.0.revision == g.sys.authority.revision + n
  {
    hide Inv, Preview, Copied, ChangeId;
    if n > 0 {
      PlanSucceedsExactly(g, stored, time, n - 1);
      assert stored[..n] == stored[..n - 1] + [stored[n - 1]];
      var p := stored[n - 1];
      if AllCurrent(g.sys, stored[..n - 1]) && p.fingerprint == g.sys.fingerprint && p.revision == g.sys.authority.revision {
        CurrentProposalPreviews(g, p);
        LaterPreviews(g.sys.authority, Plan(g.sys, stored, time, n - 1).value.0, p.change, g.sys.changes);
      }
    }
  }

  /** A batch goes through exactly when every listed proposal is still about the live state; no change in it
      can get in the way of a later one. */
  lemma BatchSucceedsExactly(g: Global, stored: seq<StoredProposal>, time: nat -> nat)
    requires Inv(g) && forall p <- stored :: Copied(g.sys, p)
    ensures CommitBatch(g.sys, stored, time).1.Ok? <==> AllCurrent(g.sys, stored)
  {
    hide Inv, Plan, FlushAll, LogOk, Stores, AllCurrent;
    InvLog(g);
    assert stored[..|stored|] == stored;
    PlanSucceedsExactly(g, stored, time, |stored|);
    if Plan(g.sys, stored, time, |stored|).Ok? {
      BatchCommits(g.sys, g.log, stored, time);
    }
  }

  /** A batch that fails, at whatever point, leaves authority, statuses and records exactly as they were. */
  lemma FailedBatchChangesNothing(g: Global, ids: seq<string>, time: nat -> nat)
    requires Inv(g) && ApplyBatch(g.sys, ids, time).1.Err?
    ensures ApplyBatch(g.sys, ids, time).0 == g.sys
  {
    hide Inv, Plan, FlushAll, Known;
    if ids != [] && BatchRefusal(g.sys, ids).None? {
      var stored := StoredOf(g.sys, ids);
      InvLog(g);
      forall p | p in stored ensures p.id in g.sys.proposals {
        var i :| 0 <= i < |stored| && stored[i] == p;
        NameOf(g.sys, ids[i]);
      }
      if Plan(g.sys, stored, time, |stored|).Ok? {
        BatchCommits(g.sys, g.log, stored, time);
      }
    }
  }

  // ----- Undisturbed calls are schedules ------------------------------------------------------------

  lemma TaskGone(tasks: map<nat, Task>, t: nat, task: Task, other: Task)
    requires t !in tasks
    ensures tasks[t := task] - {t} == tasks && tasks[t := task][t := other] == tasks[t := other] && tasks - {t} == tasks
  {
  }

  /** Each operation, called on its own, is the schedule that runs its steps back to back; so everything that
      holds of every schedule holds of every sequence of calls. */
  lemma ProposeIsASchedule(g: Global, t: nat, change: AuthorityChange, d: nat)
    requires t !in g.tasks
    ensures Next(Next(Next(g, StartPropose(t, change, d)), PreviewPropose(t)), FinishPropose(t)) ==
            g.(sys := Propose(g.sys, change, d).0)
  {
    hide Preview, StoreProposal;
    var current := g.sys.authority;
    var read := ProposeRead(current, change, d);
    var after := Preview(current, change, g.sys.changes);
    if after.Ok? {
      TaskGone(g.tasks, t, read, ProposeReady(current, after.value, change, d));
      TaskGone(g.tasks, t, ProposeReady(current, after.value, change, d), read);
    } else {
      TaskGone(g.tasks, t, read, read);
    }
  }

  lemma ApproveIsASchedule(g: Global, t: nat, id: string)
    requires Inv(g) && t !in g.tasks
    ensures Next(Next(Next(g, StartApprove(t, id)), VerifyApprove(t)), FinishApprove(t)) == g.(sys := Approve(g.sys, id).0)
  {
    hide Staleness, Inv, NamesOk, SetStatus;
    InvLog(g);
    if id in g.sys.proposals {
      NameOf(g.sys, id);
      TaskGone(g.tasks, t, ApproveChecked(g.sys.proposals[id]), ApproveVerified(id));
      TaskGone(g.tasks, t, ApproveVerified(id), ApproveVerified(id));
    }
  }

  lemma RejectIsASchedule(g: Global, t: nat, id: string, reason: string)
    requires t !in g.tasks
    ensures Next(Next(g, StartReject(t, id, reason)), FinishReject(t)) == g.(sys := Reject(g.sys, id, reason).0)
  {
    TaskGone(g.tasks, t, RejectChecked(id, reason), RejectChecked(id, reason));
  }

  lemma ApplyIsASchedule(g: Global, t: nat, id: string, approval: Approval, millis: nat)
    requires t !in g.tasks
    ensures var h := Next(Next(Next(g, StartApply(t, id, approval)), VerifyApply(t)), CommitApply(t, millis));
            h.sys == ApplyStored(g.sys, id, approval, millis).0 && h.tasks == g.tasks
  {
    hide Staleness, CommitOne;
    if id in g.sys.proposals {
      var p := g.sys.proposals[id];
      TaskGone(g.tasks, t, ApplyLoaded(p, approval), ApplyVerified(p, approval));
      TaskGone(g.tasks, t, ApplyVerified(p, approval), ApplyVerified(p, approval));
    }
  }

  /** The state after a batch has started and taken `n` reading steps undisturbed. */
  function Loaded(g: Global, t: nat, ids: seq<string>, n: nat): Global {
    if n == 0 then Next(g, StartBatch(t, ids)) else Next(Loaded(g, t, ids, n - 1), LoadNext(t))
  }

  /** One reading step. */
  lemma LoadNextMeans(g: Global, t: nat, ids: seq<string>, stored: seq<StoredProposal>)
    requires t !in g.tasks && |stored| <= |ids|
    ensures Next(g, LoadNext(t)) == g
    ensures Next(With(g, t, BatchLoading(ids, stored)), LoadNext(t)) ==
            if |stored| < |ids| then
              if ids[|stored|] in g.sys.proposals then With(g, t, BatchLoading(ids, stored + [g.sys.proposals[ids[|stored|]]])) else g
            else if exists p <- stored :: p.status != Approved then g
            else With(g, t, BatchLoaded(stored))
  {
    var read := BatchLoading(ids, stored);
    TaskGone(g.tasks, t, read, BatchLoaded(stored));
    if |stored| < |ids| && ids[|stored|] in g.sys.proposals {
      TaskGone(g.tasks, t, read, BatchLoading(ids, stored + [g.sys.proposals[ids[|stored|]]]));
    }
  }

  ghost predicate AllKnown(s: Sys, ids: seq<string>, n: nat)
    requires n <= |ids|
  {
    forall id <- ids[..n] :: id in s.proposals
  }

  lemma KnownStep(s: Sys, ids: seq<string>, n: nat)
    requires 0 < n <= |ids|
    ensures AllKnown(s, ids, n) <==> AllKnown(s, ids, n - 1) && ids[n - 1] in s.proposals
    ensures AllKnown(s, ids, n) ==>
            StoredOf(s, ids[..n]) == StoredOf(s, ids[..n - 1]) + [s.proposals[ids[n - 1]]]
  {
    assert ids[..n] == ids[..n - 1] + [ids[n - 1]];
  }

  lemma {:induction false} LoadedMeans(g: Global, t: nat, ids: seq<string>, n: nat)
    requires t !in g.tasks && ids != [] && n <= |ids|
    ensures Loaded(g, t, ids, n) ==
            if AllKnown(g.sys, ids, n) then With(g, t, BatchLoading(ids, StoredOf(g.sys, ids[..n]))) else g
  {
    if n == 0 {
      assert StoredOf(g.sys, ids[..0]) == [];
    } else {
      hide Next, With;
      LoadedMeans(g, t, ids, n - 1);
      KnownStep(g.sys, ids, n);
      LoadNextMeans(g, t, ids, if AllKnown(g.sys, ids, n - 1) then StoredOf(g.sys, ids[..n - 1]) else []);
    }
  }

  lemma CommitBatchMeans(g: Global, t: nat, stored: seq<StoredProposal>, time: nat -> nat)
    requires t !in g.tasks
    ensures Next(g, CommitBatchOf(t, time)) == g
    ensures var h := Next(With(g, t, BatchLoaded(stored)), CommitBatchOf(t, time));
            h.sys == CommitBatch(g.sys, stored, time).0 && h.tasks == g.tasks
  {
    hide CommitBatch;
    TaskGone(g.tasks, t, BatchLoaded(stored), BatchLoaded(stored));
  }

  lemma BatchIsASchedule(g: Global, t: nat, ids: seq<string>, time: nat -> nat)
    requires t !in g.tasks
    ensures var h := Next(Loaded(g, t, ids, |ids| + 1), CommitBatchOf(t, time));
            h.sys == ApplyBatch(g.sys, ids, time).0 && h.tasks == g.tasks
  {
    if ids == [] {
      assert Loaded(g, t, ids, 0) == g;
      assert Loaded(g, t, ids, 1) == g;
    } else {
      hide CommitBatch, StoredOf, Next, With, BatchRefusal;
      LoadedMeans(g, t, ids, |ids|);
      assert ids[..|ids|] == ids;
      var known := AllKnown(g.sys, ids, |ids|);
      var stored := if known then StoredOf(g.sys, ids) else [];
      LoadNextMeans(g, t, ids, stored);
      CommitBatchMeans(g, t, stored, time);
      StatusesRead(g.sys, ids);
    }
  }

  /** The statuses a batch has read undisturbed are those in the store. */
  lemma StatusesRead(s: Sys, ids: seq<string>)
    ensures AllKnown(s, ids, |ids|) <==> BatchRefusal(s, ids) != Some(NoSuchProposal)
    ensures AllKnown(s, ids, |ids|) ==>
            ((exists p <- StoredOf(s, ids) :: p.status != Approved) <==> BatchRefusal(s, ids).Some?)
  {
    assert ids[..|ids|] == ids;
    if AllKnown(s, ids, |ids|) {
      StoredStatuses(s, ids);
    }
  }

  lemma StoredStatuses(s: Sys, ids: seq<string>)
    requires forall id <- ids :: id in s.proposals
    ensures (exists p <- StoredOf(s, ids) :: p.status != Approved) <==> exists id <- ids :: s.proposals[id].status != Approved
  {
    var stored := StoredOf(s, ids);
    if p :| p in stored && p.status != Approved {
      var i :| 0 <= i < |stored| && stored[i] == p;
      assert ids[i] in ids;
    }
    if id :| id in ids && s.proposals[id].status != Approved {
      var i :| 0 <= i < |ids| && ids[i] == id;
      assert stored[i] in stored;
    }
  }
}
