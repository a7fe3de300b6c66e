/** What each call on the live authority answers and stores, exactly: proposing, approving, rejecting, applying, and what the
    records and proposals of any schedule tell. */
module AuthorityAnswers {
  import opened Prelude
  import opened Text
  import opened Authority
  import opened AuthorityLog
  import opened Interleaving
  import opened AuthoritySafety
  import opened ChangeEffects

  // ----- Deciding on a proposal ---------------------------------------------------------------------

  /** The proposal is of this contract and of the live revision. */
  ghost predicate Current(s: Sys, p: StoredProposal) {
    p.fingerprint == s.fingerprint && p.revision == s.authority.revision
  }

  /** Nothing in the system is different but, perhaps, this proposal. */
  ghost predicate OnlyProposal(s: Sys, t: Sys, id: string) {
    && t.fingerprint == s.fingerprint && t.authority == s.authority && t.changes == s.changes && t.nextId == s.nextId
    && t.proposals.Keys == s.proposals.Keys
    && forall other <- s.proposals :: other != id ==> t.proposals[other] == s.proposals[other]
  }

  lemma FreshnessExactly(g: Global, id: string)
    requires Inv(g) && id in g.sys.proposals
    ensures var (s, p) := (g.sys, g.sys.proposals[id]);
            && (Staleness(s, p).None? <==> Current(s, p))
            && (p.fingerprint != s.fingerprint ==> Staleness(s, p) == Some(StaleFingerprint))
            && (p.fingerprint == s.fingerprint && p.revision != s.authority.revision ==> Staleness(s, p) == Some(StaleRevision))
  {
    hide LogOk, Stores, StateAt, BasesOk, ProposalOk, OwnerOk, TaskOk, Preview, EndsInRevision;
    var p := g.sys.proposals[id];
    if Current(g.sys, p) {
      assert Copied(g.sys, p);
      CurrentProposalPreviews(g, p);
    }
  }

  /** In any reachable system a proposal is approved exactly when it is pending and current, or was approved already; each
      refusal has its one reason, and nothing but the status changes. */
  lemma ApprovedExactly(g: Global, id: string)
    requires Inv(g)
    ensures var (t, r) := Approve(g.sys, id);
            && (r == Err(NoSuchProposal) <==> id !in g.sys.proposals)
            && (id in g.sys.proposals ==>
                  var p := g.sys.proposals[id];
                  && (r.Ok? <==> p.status == Approved || (p.status == Pending && Current(g.sys, p)))
                  && (r == Err(AlreadyApplied) <==> p.status == Applied)
                  && (r == Err(AlreadyRejected) <==> p.status == Rejected)
                  && (r == Err(NeedsReview) <==> p.status in {Active, Orphaned, Stale, Superseded})
                  && (r == Err(StaleFingerprint) <==> p.status == Pending && p.fingerprint != g.sys.fingerprint)
                  && (r == Err(StaleRevision) <==>
                        p.status == Pending && p.fingerprint == g.sys.fingerprint && p.revision != g.sys.authority.revision)
                  && OnlyProposal(g.sys, t, id)
                  && t.proposals[id] == p.(status := if r.Ok? then Approved else p.status))
            && (r.Err? ==> t == g.sys)
  {
    hide Inv, Staleness;
    if id in g.sys.proposals {
      FreshnessExactly(g, id);
    }
  }

  /** A proposal is rejected exactly when it is stored and not applied; one that was rejected before keeps its reason, and
      nothing else changes. */
  lemma RejectedExactly(s: Sys, id: string, reason: string)
    ensures var (t, r) := Reject(s, id, reason);
            && (r.Ok? <==> id in s.proposals && s.proposals[id].status != Applied)
            && (r == Err(NoSuchProposal) <==> id !in s.proposals)
            && (r == Err(AlreadyApplied) <==> id in s.proposals && s.proposals[id].status == Applied)
            && (r.Err? ==> t == s)
            && (r.Ok? ==>
                  && OnlyProposal(s, t, id)
                  && t.proposals[id] ==
                     if s.proposals[id].status == Rejected then s.proposals[id]
                     else s.proposals[id].(status := Rejected, rejectionReason := Some(reason)))
  {
  }

  // ----- Proposing ----------------------------------------------------------------------------------

  /** In any reachable system proposing succeeds exactly when the change can be previewed; the proposal is then filed as
      pending under the next id, for this contract and the live revision, showing the live state and, setting by setting,
      the state the change would lead to. */
  lemma ProposedExactly(g: Global, change: AuthorityChange, discoveryRevision: nat)
    requires Inv(g)
    ensures var ((t, r), id) := (Propose(g.sys, change, discoveryRevision), ProposalId(g.sys.nextId));
            && (r.Ok? <==> Preview(g.sys.authority, change, g.sys.changes).Ok?)
            && (r.Err? ==> t == g.sys)
            && (r.Ok? ==>
                  && id !in g.sys.proposals && id in t.proposals
                  && t == g.sys.(nextId := g.sys.nextId + 1, proposals := g.sys.proposals[id := t.proposals[id]])
                  && var p := t.proposals[id];
                     && r.value == ChangeProposal(id, change, p.before, p.after, p.revision)
                     && p == StoredProposal(id, change, g.sys.authority.view, p.after, g.sys.authority.revision, g.sys.fingerprint,
                                            discoveryRevision, Pending, None, None)
                     && (!change.Revert? ==>
                           forall key :: Value(p.after, key) ==
                             if Says(change, key).Some? then Says(change, key).value else Value(g.sys.authority.view, key)))
  {
    hide LogOk, Stores, StateAt, BasesOk, ProposalOk, OwnerOk, TaskOk, ApplyRevert, ApplyChange, Says, Value;
    FreshName(g.sys);
    if !change.Revert? {
      ChangeMeans(g.sys.authority, change);
    }
  }

  // ----- Applying -----------------------------------------------------------------------------------

  /** Where a change leads: a revert to the content before the record it names, any other change to what it says. */
  ghost predicate LeadsTo(change: AuthorityChange, changes: map<string, ChangeRecord>, before: LiveAuthorityState,
                          after: LiveAuthorityState)
  {
    && after.revision == before.revision + 1
    && if change.Revert? then change.changeId in changes && after.view == changes[change.changeId].previous.view
       else forall key :: Value(after.view, key) ==
              if Says(change, key).Some? then Says(change, key).value else Value(before.view, key)
  }

  /** The record of a change, named after the time, its place in a batch if it is part of one, and the new revision. */
  ghost predicate IsRecord(r: ChangeRecord, id: string, change: AuthorityChange, millis: nat, place: string,
                           before: LiveAuthorityState, after: LiveAuthorityState)
  {
    r == ChangeRecord("change-" + Decimal(millis) + place + "-rev" + Decimal(after.revision), id, change, before, after,
                      if change.Revert? then Some(change.changeId) else None)
  }

  /** The new state is live, its record is kept, and its proposal is marked applied under that record. */
  ghost predicate Recorded(s: Sys, t: Sys, r: ChangeRecord) {
    && r.proposalId in s.proposals
    && t == s.(authority := r.resulting, changes := s.changes[r.changeId := r],
               proposals := s.proposals[r.proposalId :=
                 s.proposals[r.proposalId].(status := Applied, changeId := Some(r.changeId))])
  }

  /** What stands in the way of a change: an unusable password policy, or a revert of no record. */
  ghost function ChangeRefusal(change: AuthorityChange, changes: map<string, ChangeRecord>): Option<Error> {
    if change.Revert? && change.changeId !in changes then Some(NoSuchChange)
    else if change.SetPasswordPolicy? && !(1 <= change.passwordPolicy.minLength <= change.passwordPolicy.maxLength)
    then Some(InvalidPasswordPolicy) else None
  }

  lemma PreviewExactly(g: Global, change: AuthorityChange)
    requires Inv(g)
    ensures var (r, refusal) := (Preview(g.sys.authority, change, g.sys.changes), ChangeRefusal(change, g.sys.changes));
            if refusal.Some? then r == Err(refusal.value)
            else r.Ok? && LeadsTo(change, g.sys.changes, g.sys.authority, r.value)
  {
    hide LogOk, Stores, StateAt, BasesOk, ProposalOk, OwnerOk, TaskOk, NamesOk, Says, Value;
    if change.Revert? {
      GuardNeverRejects(g.log, g.sys.changes, change.changeId);
    } else {
      ChangeMeans(g.sys.authority, change);
      assert ChangeRefusal(change, g.sys.changes).Some? ==> !change.passwordPolicy.IsValid();
    }
  }

  /** In any reachable system a proposal handed in is committed exactly when it is of the live revision, nothing stands in the
      way of its change, and it is on file; when it is not on file, the change is live but unrecorded. */
  lemma CommittedExactly(g: Global, proposal: ChangeProposal, millis: nat)
    requires Inv(g)
    ensures var ((s, change), (t, r)) := ((g.sys, proposal.change), CommitOne(g.sys, proposal, millis));
            var refusal := ChangeRefusal(change, s.changes);
            if proposal.revision != s.authority.revision then t == s && r == Err(ConflictsWithNewer)
            else if refusal.Some? then t == s && r == Err(refusal.value)
            else
              && LeadsTo(change, s.changes, s.authority, t.authority)
              && if proposal.id !in s.proposals then t == s.(authority := t.authority) && r == Err(NoSuchProposal)
                 else
                   && r.Ok? && r.value in t.changes && Recorded(s, t, t.changes[r.value])
                   && IsRecord(t.changes[r.value], proposal.id, change, millis, "", s.authority, t.authority)
  {
    hide Inv, Preview, LeadsTo;
    PreviewExactly(g, proposal.change);
    assert "change-" + Decimal(millis) + "" == "change-" + Decimal(millis);
  }

  /** In any reachable system a stored proposal is applied exactly when it is approved, current, and approved for this very
      change; each refusal has its one reason and changes nothing. */
  lemma AppliedExactly(g: Global, id: string, approval: Approval, millis: nat)
    requires Inv(g)
    ensures var (s, (t, r)) := (g.sys, ApplyStored(g.sys, id, approval, millis));
            if id !in s.proposals then t == s && r == Err(NoSuchProposal)
            else
              var p := s.proposals[id];
              if p.status != Approved then t == s && r == Err(NotApproved)
              else if p.fingerprint != s.fingerprint then t == s && r == Err(StaleFingerprint)
              else if p.revision != s.authority.revision then t == s && r == Err(StaleRevision)
              else if approval.token != p.change then t == s && r == Err(ApprovalMismatch)
              else
                && r.Ok? && r.value.1 == s.authority.revision + 1 && r.value.0 in t.changes
                && LeadsTo(p.change, s.changes, s.authority, t.authority) && t.authority.view == p.after
                && Recorded(s, t, t.changes[r.value.0])
                && IsRecord(t.changes[r.value.0], id, p.change, millis, "", s.authority, t.authority)
  {
    hide LogOk, Stores, StateAt, BasesOk, ProposalOk, OwnerOk, TaskOk, Preview, CommitOne, Staleness, LeadsTo, Recorded, IsRecord;
    if id in g.sys.proposals {
      var p := g.sys.proposals[id];
      NameOf(g.sys, id);
      FreshnessExactly(g, id);
      CommittedExactly(g, ProposalOf(p), millis);
      if p.revision == g.sys.authority.revision {
        assert Copied(g.sys, p);
        CurrentProposalPreviews(g, p);
        PreviewExactly(g, p.change);
        ApplyStoredShowsPreview(g, id, approval, millis);
        assert LeadsTo(p.change, g.sys.changes, g.sys.authority, LiveAuthorityState(p.after, |g.log| + 1));
      }
    }
  }

  // ----- Applying several ---------------------------------------------------------------------------

  lemma PreviewLeads(current: LiveAuthorityState, change: AuthorityChange, changes: map<string, ChangeRecord>)
    ensures var r := Preview(current, change, changes); r.Ok? ==> LeadsTo(change, changes, current, r.value)
  {
    hide Says, Value;
    if !change.Revert? {
      ChangeMeans(current, change);
    }
  }

  /** What the records lead from, one after another. */
  function Before(s: Sys, records: seq<ChangeRecord>, i: nat): LiveAuthorityState
    requires i <= |records|
  {
    if i == 0 then s.authority else records[i - 1].resulting
  }

  /** Each record is of the proposal in its place, carries its place, and leads on from the one before it. */
  ghost predicate RecordsInTurn(s: Sys, stored: seq<StoredProposal>, time: nat -> nat, records: seq<ChangeRecord>) {
    && |records| <= |stored|
    && forall i :: 0 <= i < |records| ==>
         && IsRecord(records[i], stored[i].id, stored[i].change, time(i), "-" + Decimal(i), Before(s, records, i), records[i].resulting)
         && LeadsTo(stored[i].change, s.changes, Before(s, records, i), records[i].resulting)
  }

  ghost predicate FirstOutdated(s: Sys, stored: seq<StoredProposal>, k: int) {
    && 0 <= k < |stored| && !Current(s, stored[k])
    && forall j :: 0 <= j < k ==> Current(s, stored[j])
  }

  function Outdated(s: Sys, p: StoredProposal): Error {
    if p.fingerprint != s.fingerprint then StaleFingerprint else StaleRevision
  }

  lemma {:induction false} PlanRefused(g: Global, stored: seq<StoredProposal>, time: nat -> nat, n: nat, k: nat)
    requires Inv(g) && (forall p <- stored :: Copied(g.sys, p)) && k < n <= |stored| && FirstOutdated(g.sys, stored, k)
    ensures Plan(g.sys, stored, time, n) == Err(Outdated(g.sys, stored[k]))
  {
    hide Inv, Preview, Copied;
    if n > k + 1 {
      PlanRefused(g, stored, time, n - 1, k);
    } else {
      PlanSucceedsExactly(g, stored, time, k);
      forall p | p in stored[..k] ensures p.fingerprint == g.sys.fingerprint && p.revision == g.sys.authority.revision {
        var j :| 0 <= j < k && stored[j] == p;
        assert Current(g.sys, stored[j]);
      }
    }
  }

  lemma NoRecords(s: Sys, stored: seq<StoredProposal>, time: nat -> nat)
    ensures RecordsInTurn(s, stored, time, [])
  {
  }

  lemma {:induction false} PlanRecords(s: Sys, stored: seq<StoredProposal>, time: nat -> nat, n: nat)
    requires n <= |stored| && Plan(s, stored, time, n).Ok?
    ensures var (next, records) := Plan(s, stored, time, n).value;
            |records| == n && RecordsInTurn(s, stored, time, records) && next == Before(s, records, n)
  {
    hide Preview, LeadsTo, IsRecord, RecordsInTurn, PlanStep;
    if n == 0 {
      NoRecords(s, stored, time);
    } else {
      PlanRecords(s, stored, time, n - 1);
      var (before, records) := Plan(s, stored, time, n - 1).value;
      var (next, longer) := Plan(s, stored, time, n).value;
      RecordInTurn(s, before, records, stored[n - 1], time(n - 1), n - 1);
      MoreInTurn(s, stored, time, records, longer[n - 1]);
    }
  }

  lemma MoreInTurn(s: Sys, stored: seq<StoredProposal>, time: nat -> nat, records: seq<ChangeRecord>, record: ChangeRecord)
    requires RecordsInTurn(s, stored, time, records) && |records| < |stored|
    requires var (n, before) := (|records|, Before(s, records, |records|));
             && IsRecord(record, stored[n].id, stored[n].change, time(n), "-" + Decimal(n), before, record.resulting)
             && LeadsTo(stored[n].change, s.changes, before, record.resulting)
    ensures RecordsInTurn(s, stored, time, records + [record])
  {
    hide LeadsTo, IsRecord;
    var longer := records + [record];
    forall i | 0 <= i < |longer|
      ensures && IsRecord(longer[i], stored[i].id, stored[i].change, time(i), "-" + Decimal(i), Before(s, longer, i), longer[i].resulting)
              && LeadsTo(stored[i].change, s.changes, Before(s, longer, i), longer[i].resulting)
    {
      assert Before(s, longer, i) == Before(s, records, i);
      if i < |records| {
        assert longer[i] == records[i];
      } else {
        assert longer[i] == record;
      }
    }
  }

  lemma RecordInTurn(s: Sys, before: LiveAuthorityState, records: seq<ChangeRecord>, p: StoredProposal, millis: nat, n: nat)
    requires PlanStep(s, before, records, p, millis, n).Ok?
    ensures var (next, longer) := PlanStep(s, before, records, p, millis, n).value;
            && |longer| == |records| + 1 && longer == records + [longer[|records|]] && longer[|records|].resulting == next
            && IsRecord(longer[|records|], p.id, p.change, millis, "-" + Decimal(n), before, next)
            && LeadsTo(p.change, s.changes, before, next)
  {
    hide Preview, LeadsTo;
    PreviewLeads(before, p.change, s.changes);
    ChangeIdIs(millis, n, PlanStep(s, before, records, p, millis, n).value.0.revision);
  }

  lemma PlanAnswered(g: Global, stored: seq<StoredProposal>, time: nat -> nat)
    requires Inv(g) && forall p <- stored :: Copied(g.sys, p)
    ensures var r := Plan(g.sys, stored, time, |stored|);
            && (forall k :: FirstOutdated(g.sys, stored, k) ==> r == Err(Outdated(g.sys, stored[k])))
            && ((forall p <- stored :: Current(g.sys, p)) ==>
                  && r.Ok? && |r.value.1| == |stored| && RecordsInTurn(g.sys, stored, time, r.value.1)
                  && r.value.0 == Before(g.sys, r.value.1, |stored|))
  {
    hide Inv, Plan, Copied, Outdated, RecordsInTurn;
    forall k | FirstOutdated(g.sys, stored, k) ensures Plan(g.sys, stored, time, |stored|) == Err(Outdated(g.sys, stored[k])) {
      PlanRefused(g, stored, time, |stored|, k);
    }
    if forall p <- stored :: Current(g.sys, p) {
      assert stored[..|stored|] == stored;
      PlanSucceedsExactly(g, stored, time, |stored|);
      PlanRecords(g.sys, stored, time, |stored|);
    }
  }

  lemma ChangeIdIs(millis: nat, place: nat, revision: nat)
    ensures ChangeId(millis, Some(place), revision) == "change-" + Decimal(millis) + ("-" + Decimal(place)) + "-rev" + Decimal(revision)
  {
  }

  ghost predicate LastOfIts(records: seq<ChangeRecord>, i: int) {
    0 <= i < |records| && forall j :: i < j < |records| ==> records[j].proposalId != records[i].proposalId
  }

  /** Each proposal is marked applied under its last record; the others are as they were. */
  ghost predicate Marked(s: Sys, t: Sys, records: seq<ChangeRecord>) {
    && t.proposals.Keys == s.proposals.Keys && t.nextId == s.nextId && t.fingerprint == s.fingerprint
    && (forall i :: LastOfIts(records, i) ==>
          && records[i].proposalId in s.proposals
          && t.proposals[records[i].proposalId] ==
             s.proposals[records[i].proposalId].(status := Applied, changeId := Some(records[i].changeId)))
    && (forall id <- s.proposals :: (forall i :: 0 <= i < |records| ==> records[i].proposalId != id) ==>
          t.proposals[id] == s.proposals[id])
  }

  lemma {:induction false} FlushAllMarks(s: Sys, records: seq<ChangeRecord>)
    requires Known(s, records)
    ensures Marked(s, FlushAll(s, records), records)
  {
    if records != [] {
      var init, last := records[..|records| - 1], records[|records| - 1];
      assert last in records && records == init + [last];
      FlushAllMarks(s, init);
      FlushMarks(s, FlushAll(s, init), init, last);
    }
  }

  lemma FlushMarks(s: Sys, u: Sys, init: seq<ChangeRecord>, last: ChangeRecord)
    requires Marked(s, u, init) && last.proposalId in s.proposals
    ensures Marked(s, Flush(u, last), init + [last])
  {
    var records, t := init + [last], Flush(u, last);
    FlushedOver(s, u, init, last);
    assert records[|init|] == last;
    forall i | LastOfIts(records, i)
      ensures && records[i].proposalId in s.proposals
              && t.proposals[records[i].proposalId] ==
                 s.proposals[records[i].proposalId].(status := Applied, changeId := Some(records[i].changeId))
    {
      if i < |init| {
        assert records[|init|].proposalId != records[i].proposalId && records[i] == init[i];
        assert forall j :: i < j < |init| ==> records[j] == init[j];
        assert LastOfIts(init, i);
      }
    }
    forall id | id in s.proposals && forall i :: 0 <= i < |records| ==> records[i].proposalId != id
      ensures t.proposals[id] == s.proposals[id]
    {
      assert records[|init|].proposalId != id;
      assert forall i :: 0 <= i < |init| ==> init[i] == records[i];
    }
  }

  /** An earlier record of the same proposal leaves no trace in it. */
  lemma FlushedOver(s: Sys, u: Sys, init: seq<ChangeRecord>, last: ChangeRecord)
    requires Marked(s, u, init) && last.proposalId in s.proposals
    ensures u.proposals[last.proposalId].(status := Applied, changeId := Some(last.changeId)) ==
            s.proposals[last.proposalId].(status := Applied, changeId := Some(last.changeId))
  {
    if i :| 0 <= i < |init| && init[i].proposalId == last.proposalId {
      var k := LastIndexWhere(init, (r: ChangeRecord) => r.proposalId == last.proposalId).value;
      assert LastOfIts(init, k);
    }
  }

  /** The records are kept beside those there were. */
  ghost predicate Kept(s: Sys, t: Sys, records: seq<ChangeRecord>) {
    && (forall r <- records :: r.changeId in t.changes && t.changes[r.changeId] == r)
    && (forall id <- s.changes :: id in t.changes && t.changes[id] == s.changes[id])
    && (forall id <- t.changes :: id in s.changes || exists r <- records :: r.changeId == id)
  }

  lemma StoresKept(s: Sys, t: Sys, log: seq<ChangeRecord>, records: seq<ChangeRecord>)
    requires Stores(s.changes, log) && Stores(t.changes, log + records)
    ensures Kept(s, t, records)
  {
    forall r | r in records ensures r.changeId in t.changes && t.changes[r.changeId] == r {
      var i :| 0 <= i < |records| && records[i] == r;
      assert (log + records)[|log| + i] == r;
    }
    forall id | id in s.changes ensures id in t.changes && t.changes[id] == s.changes[id] {
      var k :| 0 <= k < |log| && log[k].changeId == id;
      assert (log + records)[k] == log[k];
    }
    forall id | id in t.changes ensures id in s.changes || exists r <- records :: r.changeId == id {
      var k :| 0 <= k < |log + records| && (log + records)[k].changeId == id;
      assert k >= |log| ==> (log + records)[k] in records;
    }
  }

  lemma BatchStored(g: Global, stored: seq<StoredProposal>, time: nat -> nat)
    requires Inv(g) && stored != [] && forall p <- stored :: Copied(g.sys, p) && Current(g.sys, p)
    ensures var (t, r) := CommitBatch(g.sys, stored, time);
            && r.Ok? && |r.value| == |stored| && RecordsInTurn(g.sys, stored, time, r.value)
            && t.authority == r.value[|stored| - 1].resulting && Kept(g.sys, t, r.value) && Marked(g.sys, t, r.value)
  {
    hide Inv, LogOk, Stores, Plan, FlushAll, RecordsInTurn, Kept, Marked, Current;
    PlanAnswered(g, stored, time);
    InvLog(g);
    BatchCommits(g.sys, g.log, stored, time);
    var (next, records) := Plan(g.sys, stored, time, |stored|).value;
    var s := g.sys.(authority := next);
    FlushAllKeeps(s, g.log, records);
    FlushAllMarks(s, records);
    MarkedAlike(g.sys, s, FlushAll(s, records), records);
    StoresKept(g.sys, FlushAll(s, records), g.log, records);
  }

  lemma MarkedAlike(s: Sys, u: Sys, t: Sys, records: seq<ChangeRecord>)
    requires Marked(u, t, records) && u == s.(authority := u.authority)
    ensures Marked(s, t, records)
  {
  }

  /** In any reachable system a list of proposals is applied exactly when all are on file, approved and current; the first
      of these that fails for any of them decides the refusal, which changes nothing. Applied, they leave one record each,
      in turn. */
  lemma BatchAnswered(g: Global, ids: seq<string>, time: nat -> nat)
    requires Inv(g)
    ensures var (s, (t, r)) := (g.sys, ApplyBatch(g.sys, ids, time));
            if ids == [] then t == s && r == Ok([])
            else if exists id <- ids :: id !in s.proposals then t == s && r == Err(NoSuchProposal)
            else if exists id <- ids :: s.proposals[id].status != Approved then t == s && r == Err(NotApproved)
            else
              var stored := seq(|ids|, i requires 0 <= i < |ids| => s.proposals[ids[i]]);
              && (forall k :: FirstOutdated(s, stored, k) ==> t == s && r == Err(Outdated(s, stored[k])))
              && ((forall p <- stored :: Current(s, p)) ==>
                    && r.Ok? && |r.value| == |ids| && RecordsInTurn(s, stored, time, r.value)
                    && t.authority == r.value[|ids| - 1].resulting && Kept(s, t, r.value) && Marked(s, t, r.value))
  {
    hide LogOk, StateAt, BasesOk, ProposalOk, OwnerOk, TaskOk, Plan, FlushAll, RecordsInTurn, Kept, Marked, Current, Outdated;
    var s := g.sys;
    if ids != [] && BatchRefusal(s, ids).None? {
      var stored := StoredOf(s, ids);
      assert stored == seq(|ids|, i requires 0 <= i < |ids| => s.proposals[ids[i]]);
      forall p | p in stored ensures Copied(s, p) {
        var i :| 0 <= i < |stored| && stored[i] == p;
        assert ids[i] in ids;
        NameOf(s, ids[i]);
      }
      hide Inv;
      PlanAnswered(g, stored, time);
      if forall p <- stored :: Current(s, p) {
        BatchStored(g, stored, time);
      }
    }
  }
}
