/** Schedules that show what the guarantees leave open. */
module ScheduleExamples {
  import opened Prelude
  import opened Authority
  import opened Interleaving
  import opened AuthoritySafety
  import opened StalePreviews
  import opened StatusHistory

  function Last(states: seq<Global>): Global
    requires states != []
  {
    states[|states| - 1]
  }

  /** One more step at the end of a schedule. */
  lemma Extend(states: seq<Global>, actions: seq<Action>, a: Action) returns (more: seq<Global>, done: seq<Action>)
    requires IsRun(states, actions)
    ensures IsRun(more, done) && more == states + [Next(Last(states), a)] && done == actions + [a]
  {
    hide Next, Initial;
    more, done := states + [Next(Last(states), a)], actions + [a];
    forall i | 0 <= i < |done| ensures Next(more[i], done[i]) == more[i + 1] {
      if i < |actions| {
        assert Next(states[i], actions[i]) == states[i + 1];
      }
    }
  }

  const CHANGE := ProtectRoute(Get, "/", "a")
  const ID := ProposalId(1)
  const SHOWN := PreviewState(map[RouteId(Get, "/") := "a"], map[], map[], None)

  function Filed(status: ProposalStatus, reason: Option<string>): StoredProposal {
    StoredProposal(ID, CHANGE, INITIAL.view, SHOWN, 0, "f", 0, status, None, reason)
  }

  function WithProposal(p: StoredProposal): Global {
    Global(Sys("f", INITIAL, map[ID := p], map[], 2), map[], [], [])
  }

  /** One caller proposes and approves a change. */
  lemma Approving() returns (states: seq<Global>, actions: seq<Action>)
    ensures IsRun(states, actions) && Last(states) == WithProposal(Filed(Approved, None))
  {
    hide Next, Propose, Approve;
    var start := Global(Sys("f", INITIAL, map[], map[], 1), map[], [], []);
    states, actions := [start], [];
    states, actions := Extend(states, actions, StartPropose(0, CHANGE, 0));
    states, actions := Extend(states, actions, PreviewPropose(0));
    states, actions := Extend(states, actions, FinishPropose(0));
    ProposeIsASchedule(start, 0, CHANGE, 0);
    Proposed(start);
    var g := WithProposal(Filed(Pending, None));
    EveryScheduleKeepsInv(states, actions, |actions|);
    ApproveIsASchedule(g, 0, ID);
    ApprovedNow();
    states, actions := Extend(states, actions, StartApprove(0, ID));
    states, actions := Extend(states, actions, VerifyApprove(0));
    states, actions := Extend(states, actions, FinishApprove(0));
  }

  lemma Proposed(start: Global)
    requires start == Global(Sys("f", INITIAL, map[], map[], 1), map[], [], [])
    ensures start.(sys := Propose(start.sys, CHANGE, 0).0) == WithProposal(Filed(Pending, None))
  {
  }

  lemma ApprovedNow()
    ensures var g := WithProposal(Filed(Pending, None));
            g.(sys := Approve(g.sys, ID).0) == WithProposal(Filed(Approved, None))
  {
    var g := WithProposal(Filed(Pending, None));
    assert g.sys.proposals[ID := Filed(Approved, None)] == map[ID := Filed(Approved, None)];
  }

  /** A proposal rejected after an apply has read its status, but before the apply commits, is committed. */
  lemma RejectedMeanwhileIsCommitted() returns (states: seq<Global>, actions: seq<Action>, n: nat)
    ensures IsRun(states, actions) && n == |actions| - 1 && actions[n] == CommitApply(0, 0)
    ensures ID in states[n].sys.proposals && states[n].sys.proposals[ID].status == Rejected
    ensures Commits(states[n], actions[n], ID) && states[n + 1].sys.authority == LiveAuthorityState(SHOWN, 1)
  {
    hide Next, Commits;
    states, actions := Approving();
    var a := Last(states);
    states, actions := Extend(states, actions, StartApply(0, ID, Approval(CHANGE)));
    states, actions := Extend(states, actions, VerifyApply(0));
    states, actions := Extend(states, actions, StartReject(1, ID, "no"));
    states, actions := Extend(states, actions, FinishReject(1));
    n := |actions|;
    RejectedMeanwhile(a);
    states, actions := Extend(states, actions, CommitApply(0, 0));
    CommitsItsOwn(states, actions, n);
    AppliedAsPreviewed(states, actions, n);
  }

  lemma RejectedMeanwhile(a: Global)
    requires a == WithProposal(Filed(Approved, None))
    ensures var b := Next(Next(Next(Next(a, StartApply(0, ID, Approval(CHANGE))), VerifyApply(0)), StartReject(1, ID, "no")),
                          FinishReject(1));
            && b.sys == a.sys.(proposals := map[ID := Filed(Rejected, Some("no"))]) && b.log == []
            && 0 in b.tasks && b.tasks[0] == ApplyVerified(Filed(Approved, None), Approval(CHANGE))
  {
    var a1 := Next(a, StartApply(0, ID, Approval(CHANGE)));
    assert a1 == With(a, 0, ApplyLoaded(Filed(Approved, None), Approval(CHANGE)));
    var a2 := Next(a1, VerifyApply(0));
    assert a2 == With(a1, 0, ApplyVerified(Filed(Approved, None), Approval(CHANGE)));
    var a3 := Next(a2, StartReject(1, ID, "no"));
    assert a3 == With(a2, 1, RejectChecked(ID, "no"));
    var a4 := Next(a3, FinishReject(1));
    assert a3.sys.proposals[ID := Filed(Rejected, Some("no"))] == map[ID := Filed(Rejected, Some("no"))];
    assert a4 == Without(a3.(sys := MarkRejected(a3.sys, ID, "no")), 1);
  }

  const RECORD := ChangeId(0, None, 1)

  /** A caller that reads the live state just before a commit and previews a revert of that commit just after it is
      told that its authority is older, although the record is stored. */
  lemma StaleRevertIsRefused() returns (states: seq<Global>, actions: seq<Action>, n: nat)
    ensures IsRun(states, actions) && n == |actions| - 1 && actions[n] == PreviewPropose(1)
    ensures Recorded(states[n].log, RECORD) && 1 in states[n].tasks && states[n].tasks[1].ProposeRead?
    ensures Preview(states[n].tasks[1].current, Revert(RECORD), states[n].sys.changes) == Err(OlderAuthority)
    ensures 1 !in states[n + 1].tasks
  {
    hide Next, Commits, Preview, Recorded, Inv;
    states, actions := Approving();
    var a := Last(states);
    states, actions := Extend(states, actions, StartApply(0, ID, Approval(CHANGE)));
    states, actions := Extend(states, actions, VerifyApply(0));
    states, actions := Extend(states, actions, StartPropose(1, Revert(RECORD), 0));
    states, actions := Extend(states, actions, CommitApply(0, 0));
    n := |actions|;
    ReadBeforeCommit(a);
    states, actions := Extend(states, actions, PreviewPropose(1));
    var m := RevertPreviewedExactly(states, actions, n, RECORD);
    assert m != n - 1;
    LogsExtend(states, actions, m, n - 1);
    assert !Recorded(states[m].log, RECORD) by { NothingRecorded(); }
  }

  lemma NothingRecorded()
    ensures !Recorded([], RECORD)
  {
  }

  lemma ReadBeforeCommit(a: Global)
    requires a == WithProposal(Filed(Approved, None))
    ensures var b := Next(Next(Next(a, StartApply(0, ID, Approval(CHANGE))), VerifyApply(0)), StartPropose(1, Revert(RECORD), 0));
            && b.log == [] && 1 in b.tasks && b.tasks[1] == ProposeRead(INITIAL, Revert(RECORD), 0)
            && var c := Next(b, CommitApply(0, 0));
               Recorded(c.log, RECORD) && 1 in c.tasks && c.tasks[1] == ProposeRead(INITIAL, Revert(RECORD), 0)
  {
    var a1 := Next(a, StartApply(0, ID, Approval(CHANGE)));
    assert a1 == With(a, 0, ApplyLoaded(Filed(Approved, None), Approval(CHANGE)));
    var a2 := Next(a1, VerifyApply(0));
    assert a2 == With(a1, 0, ApplyVerified(Filed(Approved, None), Approval(CHANGE)));
    var a3 := Next(a2, StartPropose(1, Revert(RECORD), 0));
    assert a3 == With(a2, 1, ProposeRead(INITIAL, Revert(RECORD), 0));
    var c := Next(a3, CommitApply(0, 0));
    assert c.log[0].changeId == RECORD;
  }

  /** A batch that lists a proposal twice gives it two change records. */
  lemma RepeatedIdIsRecordedTwice() returns (states: seq<Global>, actions: seq<Action>)
    ensures IsRun(states, actions) && !NoneTwice(Last(states).log) && |Last(states).log| == 2
    ensures Last(states).log[0].proposalId == Last(states).log[1].proposalId == ID
  {
    hide Next, ApplyBatch, Loaded, Initial;
    states, actions := Approving();
    var g, ids, time := Last(states), [ID, ID], (n: nat) => 0 as nat;
    EveryScheduleKeepsInv(states, actions, |actions|);
    RepeatedIdIsAppliedTwice(g, ID, time);
    states, actions := Extend(states, actions, StartBatch(0, ids));
    states, actions := Extend(states, actions, LoadNext(0));
    states, actions := Extend(states, actions, LoadNext(0));
    states, actions := Extend(states, actions, LoadNext(0));
    assert Last(states) == Loaded(g, 0, ids, 3) by { ThreeLoads(g, ids); }
    states, actions := Extend(states, actions, CommitBatchOf(0, time));
    BatchIsASchedule(g, 0, ids, time);
    BatchAppends(g, 0, ids, time);
    var records := ApplyBatch(g.sys, ids, time).1.value;
    assert Last(states).log == [] + records == records;
    assert Last(states).log[0].proposalId == Last(states).log[1].proposalId;
  }

  lemma ThreeLoads(g: Global, ids: seq<string>)
    ensures Loaded(g, 0, ids, 3) == Next(Next(Next(Next(g, StartBatch(0, ids)), LoadNext(0)), LoadNext(0)), LoadNext(0))
  {
    hide Next;
    assert Loaded(g, 0, ids, 1) == Next(Loaded(g, 0, ids, 0), LoadNext(0));
  }

  /** A batch that goes through undisturbed appends its records. */
  lemma BatchAppends(g: Global, t: nat, ids: seq<string>, time: nat -> nat)
    requires Inv(g) && t !in g.tasks && ids != [] && ApplyBatch(g.sys, ids, time).1.Ok?
    ensures Next(Loaded(g, t, ids, |ids| + 1), CommitBatchOf(t, time)).log == g.log + ApplyBatch(g.sys, ids, time).1.value
  {
    hide Inv, CommitBatch, StoredOf, Next, With, BatchRefusal, Plan;
    InvLog(g);
    AcceptedBatch(g.sys, ids, time);
    assert ids[..|ids|] == ids;
    LoadedMeans(g, t, ids, |ids|);
    LoadNextMeans(g, t, ids, StoredOf(g.sys, ids));
    StatusesRead(g.sys, ids);
    CommitOfLoaded(g, t, StoredOf(g.sys, ids), time);
  }

  lemma CommitOfLoaded(g: Global, t: nat, stored: seq<StoredProposal>, time: nat -> nat)
    requires CommitBatch(g.sys, stored, time).1.Ok?
    ensures Next(With(g, t, BatchLoaded(stored)), CommitBatchOf(t, time)).log == g.log + CommitBatch(g.sys, stored, time).1.value
  {
    hide CommitBatch;
  }
}
