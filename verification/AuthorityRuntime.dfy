/** The proposal store and the runtime that owns the live authority, as objects updated in place. Every operation
    does to the whole system exactly what the function of the same name in `Authority` says. */
module AuthorityRuntime {
  import opened Prelude
  import opened Authority
  import opened Sorting

  class ProposalStore {
    var proposals: map<string, StoredProposal>
    var changes: map<string, ChangeRecord>
    var nextId: nat

    constructor ()
      ensures proposals == map[] && changes == map[] && nextId == 1
    {
      proposals, changes, nextId := map[], map[], 1;
    }

    method AllocateProposalId() returns (id: string)
      modifies this`nextId
      ensures id == ProposalId(old(nextId)) && nextId == old(nextId) + 1
    {
      id := ProposalId(nextId);
      nextId := nextId + 1;
    }

    method StoreNew(proposal: StoredProposal) returns (r: Result<(), Error>)
      modifies this`proposals
      ensures if proposal.id in old(proposals) then r == Err(ProposalExists) && proposals == old(proposals)
              else r == Ok(()) && proposals == old(proposals)[proposal.id := proposal]
    {
      if proposal.id in proposals {
        return Err(ProposalExists);
      }
      proposals := proposals[proposal.id := proposal];
      r := Ok(());
    }

    method Retrieve(id: string) returns (r: Result<StoredProposal, Error>)
      ensures r == if id in proposals then Ok(proposals[id]) else Err(NoSuchProposal)
    {
      r := if id in proposals then Ok(proposals[id]) else Err(NoSuchProposal);
    }

    /** The first stored proposal, in the order of ids, of the same change under the same contract and discovery. */
    method Find(change: AuthorityChange, fingerprint: string, discoveryRevision: nat) returns (r: Option<StoredProposal>)
      ensures r.None? <==> !exists id :: id in proposals && IsFor(proposals[id], change, fingerprint, discoveryRevision)
      ensures r.Some? ==> r.value in proposals.Values && IsFor(r.value, change, fingerprint, discoveryRevision)
      ensures r.Some? ==> exists id <- proposals :: proposals[id] == r.value && id in FirstFor(proposals, change, fingerprint, discoveryRevision)
    {
      var matching := set id <- proposals.Keys | IsFor(proposals[id], change, fingerprint, discoveryRevision);
      if matching == {} {
        assert forall id <- proposals.Keys :: id !in matching;
        return None;
      }
      LeastExists(matching);
      var id :| id in matching && forall other <- matching :: TextLe(id, other);
      r := Some(proposals[id]);
    }

    method MarkApplied(id: string, changeId: string) returns (r: Result<(), Error>)
      modifies this`proposals
      ensures if id !in old(proposals) then r == Err(NoSuchProposal) && proposals == old(proposals)
              else r == Ok(()) && proposals ==
                   old(proposals)[id := old(proposals)[id].(status := Applied, changeId := Some(changeId))]
    {
      if id !in proposals {
        return Err(NoSuchProposal);
      }
      proposals := proposals[id := proposals[id].(status := Applied, changeId := Some(changeId))];
      r := Ok(());
    }

    method MarkApproved(id: string) returns (r: Result<(), Error>)
      modifies this`proposals
      ensures if id !in old(proposals) then r == Err(NoSuchProposal) && proposals == old(proposals)
              else r == Ok(()) && proposals == old(proposals)[id := old(proposals)[id].(status := Approved)]
    {
      if id !in proposals {
        return Err(NoSuchProposal);
      }
      proposals := proposals[id := proposals[id].(status := Approved)];
      r := Ok(());
    }

    method MarkRejected(id: string, reason: string) returns (r: Result<(), Error>)
      modifies this`proposals
      ensures if id !in old(proposals) then r == Err(NoSuchProposal) && proposals == old(proposals)
              else r == Ok(()) && proposals ==
                   old(proposals)[id := old(proposals)[id].(status := Rejected, rejectionReason := Some(reason))]
    {
      if id !in proposals {
        return Err(NoSuchProposal);
      }
      proposals := proposals[id := proposals[id].(status := Rejected, rejectionReason := Some(reason))];
      r := Ok(());
    }

    method StoreChangeRecord(record: ChangeRecord)
      modifies this`changes
      ensures changes == old(changes)[record.changeId := record]
    {
      changes := changes[record.changeId := record];
    }
  }

  /** Every non-empty set of texts has a first one. */
  lemma {:induction false} LeastExists(texts: set<string>)
    requires texts != {}
    ensures exists a :: a in texts && forall b <- texts :: TextLe(a, b)
    decreases |texts|
  {
    var x :| x in texts;
    var rest := texts - {x};
    TextTotal(x, x);
    if rest == {} {
      forall b | b in texts ensures TextLe(x, b) {
        assert b == x || b in rest;
      }
    } else {
      LeastExists(rest);
      var a :| a in rest && forall b <- rest :: TextLe(a, b);
      TextTotal(a, x);
      if TextLe(a, x) {
        assert forall b <- texts :: b in rest || b == x;
      } else {
        forall b | b in texts ensures TextLe(x, b) {
          if b != x {
            TextTransitive(x, a, b);
          }
        }
      }
    }
  }

  /** The matching id before all other matching ones. */
  function FirstFor(proposals: map<string, StoredProposal>, change: AuthorityChange, fingerprint: string,
                    discoveryRevision: nat): set<string>
  {
    set id <- proposals | IsFor(proposals[id], change, fingerprint, discoveryRevision)
                          && (forall other <- proposals | IsFor(proposals[other], change, fingerprint, discoveryRevision) ::
                                TextLe(id, other))
  }

  predicate IsFor(p: StoredProposal, change: AuthorityChange, fingerprint: string, discoveryRevision: nat) {
    p.change == change && p.fingerprint == fingerprint && p.discoveryRevision == discoveryRevision
  }

  class Runtime {
    const fingerprint: string
    const store: ProposalStore
    var authority: LiveAuthorityState

    ghost function Abstract(): Sys
      reads this, store
    {
      Sys(fingerprint, authority, store.proposals, store.changes, store.nextId)
    }

    /** Proposals are filed under their own ids. */
    ghost predicate Valid()
      reads this, store
    {
      forall id <- store.proposals :: store.proposals[id].id == id
    }

    constructor (fingerprint: string)
      ensures Valid()
      ensures Abstract() == Sys(fingerprint, INITIAL, map[], map[], 1) && fresh(store)
    {
      this.fingerprint := fingerprint;
      store := new ProposalStore();
      authority := INITIAL;
    }

    method ProposeChange(change: AuthorityChange, discoveryRevision: nat) returns (r: Result<ChangeProposal, Error>)
      requires Valid()
      modifies store
      ensures Valid()
      ensures (Abstract(), r) == Propose(old(Abstract()), change, discoveryRevision)
    {
      var current := authority;
      var preview := Preview(current, change, store.changes);
      if preview.Err? {
        return Err(preview.error);
      }
      var after := preview.value;
      var id := store.AllocateProposalId();
      var proposal := ChangeProposal(id, change, current.view, after.view, current.revision);
      var stored := store.StoreNew(StoredProposal(id, proposal.change, proposal.before, proposal.after, proposal.revision,
                                                  fingerprint, discoveryRevision, Pending, None, None));
      r := if stored.Err? then Err(stored.error) else Ok(proposal);
    }

    /** Asking twice for the same change yields a stored proposal and stores nothing new. */
    method EnsureProposal(change: AuthorityChange, discoveryRevision: nat) returns (r: Result<StoredProposal, Error>)
      requires Valid()
      modifies store
      ensures Valid()
      ensures if exists id :: id in old(store.proposals) && IsFor(old(store.proposals)[id], change, fingerprint, discoveryRevision)
              then Abstract() == old(Abstract()) && r.Ok? && r.value in old(store.proposals).Values
                   && IsFor(r.value, change, fingerprint, discoveryRevision)
              else
                var (t, proposed) := Propose(old(Abstract()), change, discoveryRevision);
                Abstract() == t && r.Ok? == proposed.Ok?
                && (r.Ok? ==> proposed.value.id in t.proposals && r.value == t.proposals[proposed.value.id]
                              && IsFor(r.value, change, fingerprint, discoveryRevision))
                && (r.Err? ==> r.error == proposed.error)
    {
      var existing := store.Find(change, fingerprint, discoveryRevision);
      if existing.Some? {
        return Ok(existing.value);
      }
      var proposed := ProposeChange(change, discoveryRevision);
      if proposed.Err? {
        return Err(proposed.error);
      }
      r := store.Retrieve(proposed.value.id);
    }

    method VerifyCurrent(proposal: StoredProposal) returns (r: Result<(), Error>)
      ensures var stale := Staleness(Abstract(), proposal); r == if stale.Some? then Err(stale.value) else Ok(())
    {
      if proposal.fingerprint != fingerprint {
        return Err(StaleFingerprint);
      }
      if proposal.revision != authority.revision {
        return Err(StaleRevision);
      }
      var next := Preview(authority, proposal.change, store.changes);
      r := if next.Err? then Err(next.error) else Ok(());
    }

    method ApproveStored(id: string) returns (r: Result<(), Error>)
      requires Valid()
      modifies store
      ensures Valid()
      ensures (Abstract(), r) == Approve(old(Abstract()), id)
    {
      var stored := store.Retrieve(id);
      if stored.Err? {
        return Err(stored.error);
      }
      match stored.value.status {
        case Pending =>
        case Approved => return Ok(());
        case Applied => return Err(AlreadyApplied);
        case Rejected => return Err(AlreadyRejected);
        case _ => return Err(NeedsReview);
      }
      var current := VerifyCurrent(stored.value);
      if current.Err? {
        return current;
      }
      r := store.MarkApproved(id);
    }

    method RejectStored(id: string, reason: string) returns (r: Result<(), Error>)
      requires Valid()
      modifies store
      ensures Valid()
      ensures (Abstract(), r) == Reject(old(Abstract()), id, reason)
    {
      var stored := store.Retrieve(id);
      if stored.Err? {
        return Err(stored.error);
      }
      match stored.value.status {
        case Applied => return Err(AlreadyApplied);
        case Rejected => return Ok(());
        case _ =>
      }
      r := store.MarkRejected(id, reason);
    }

    /** Marks a record's proposal applied and keeps the record. */
    method FlushRecord(record: ChangeRecord) returns (r: Result<(), Error>)
      requires Valid()
      modifies store
      ensures Valid()
      ensures if record.proposalId in old(store.proposals) then r == Ok(()) && Abstract() == Flush(old(Abstract()), record)
              else r == Err(NoSuchProposal) && Abstract() == old(Abstract())
    {
      r := store.MarkApplied(record.proposalId, record.changeId);
      if r.Ok? {
        store.StoreChangeRecord(record);
      }
    }

    method ApplyProposal(proposal: ChangeProposal, approval: Approval, millis: nat) returns (r: Result<string, Error>)
      requires Valid()
      modifies this, store
      ensures Valid()
      ensures if approval.token != proposal.change then r == Err(ApprovalMismatch) && Abstract() == old(Abstract())
              else (Abstract(), r) == CommitOne(old(Abstract()), proposal, millis)
    {
      if approval.token != proposal.change {
        return Err(ApprovalMismatch);
      }
      if proposal.revision != authority.revision {
        return Err(ConflictsWithNewer);
      }
      var previous := authority;
      var next := Preview(authority, proposal.change, store.changes);
      if next.Err? {
        return Err(next.error);
      }
      var changeId := ChangeId(millis, None, next.value.revision);
      authority := next.value;
      var flushed := FlushRecord(RecordFor(changeId, proposal.id, proposal.change, previous, authority));
      r := if flushed.Err? then Err(flushed.error) else Ok(changeId);
    }

    method ApplyStoredProposal(id: string, approval: Approval, millis: nat) returns (r: Result<(string, nat), Error>)
      requires Valid()
      modifies this, store
      ensures Valid()
      ensures (Abstract(), r) == ApplyStored(old(Abstract()), id, approval, millis)
    {
      var found := store.Retrieve(id);
      if found.Err? {
        return Err(found.error);
      }
      var stored := found.value;
      if stored.status != Approved {
        return Err(NotApproved);
      }
      var current := VerifyCurrent(stored);
      if current.Err? {
        return Err(current.error);
      }
      var changeId := ApplyProposal(ProposalOf(stored), approval, millis);
      r := if changeId.Err? then Err(changeId.error) else Ok((changeId.value, authority.revision));
    }

    /** Reads all proposals of a batch. */
    method RetrieveAll(ids: seq<string>) returns (r: Result<seq<StoredProposal>, Error>)
      ensures if forall id <- ids :: id in store.proposals then r == Ok(StoredOf(Abstract(), ids))
              else r == Err(NoSuchProposal)
    {
      var stored: seq<StoredProposal> := [];
      for i := 0 to |ids|
        invariant forall id <- ids[..i] :: id in store.proposals
        invariant stored == StoredOf(Abstract(), ids[..i])
      {
        assert ids[..i + 1] == ids[..i] + [ids[i]];
        var one := store.Retrieve(ids[i]);
        if one.Err? {
          return Err(one.error);
        }
        stored := stored + [one.value];
      }
      assert ids[..|ids|] == ids;
      r := Ok(stored);
    }

    /** Works out every step of a batch before anything is changed. */
    method PlanBatch(stored: seq<StoredProposal>, time: nat -> nat)
      returns (r: Result<(LiveAuthorityState, seq<ChangeRecord>), Error>)
      ensures r == Plan(Abstract(), stored, time, |stored|)
    {
      var base := authority.revision;
      var next := authority;
      var records := [];
      for i := 0 to |stored|
        invariant Plan(Abstract(), stored, time, i) == Ok((next, records))
      {
        var proposal := stored[i];
        if proposal.fingerprint != fingerprint {
          FailedPlan(Abstract(), stored, time, i + 1, |stored|);
          return Err(StaleFingerprint);
        }
        if proposal.revision != base {
          FailedPlan(Abstract(), stored, time, i + 1, |stored|);
          return Err(StaleRevision);
        }
        var before := next;
        var after := Preview(next, proposal.change, store.changes);
        if after.Err? {
          FailedPlan(Abstract(), stored, time, i + 1, |stored|);
          return Err(after.error);
        }
        next := after.value;
        var changeId := ChangeId(time(i), Some(i), next.revision);
        records := records + [RecordFor(changeId, proposal.id, proposal.change, before, next)];
      }
      r := Ok((next, records));
    }

    /** Flushes the planned records in order. */
    method FlushBatch(records: seq<ChangeRecord>) returns (r: Result<seq<ChangeRecord>, Error>)
      requires Valid() && Known(Abstract(), records)
      modifies store
      ensures Valid()
      ensures Abstract() == FlushAll(old(Abstract()), records) && r == Ok(records)
    {
      var outcomes := [];
      for i := 0 to |records|
        invariant Valid() && outcomes == records[..i] && Known(old(Abstract()), records[..i])
        invariant Abstract() == FlushAll(old(Abstract()), records[..i])
        invariant store.proposals.Keys == old(store.proposals).Keys
      {
        assert records[i] in records;
        assert records[..i + 1][..i] == records[..i] && records[..i + 1][i] == records[i];
        var flushed := FlushRecord(records[i]);
        outcomes := outcomes + [records[i]];
      }
      assert records[..|records|] == records;
      r := Ok(outcomes);
    }

    method ApplyApprovedStoredProposals(ids: seq<string>, time: nat -> nat) returns (r: Result<seq<ChangeRecord>, Error>)
      requires Valid()
      modifies this, store
      ensures Valid()
      ensures (Abstract(), r) == ApplyBatch(old(Abstract()), ids, time)
    {
      if |ids| == 0 {
        return Ok([]);
      }
      var found := RetrieveAll(ids);
      if found.Err? {
        assert exists id <- ids :: id !in store.proposals;
        return Err(found.error);
      }
      var stored := found.value;
      for i := 0 to |stored|
        invariant forall k :: 0 <= k < i ==> stored[k].status == Approved
      {
        if stored[i].status != Approved {
          assert ids[i] in ids && store.proposals[ids[i]].status != Approved;
          return Err(NotApproved);
        }
      }
      assert BatchRefusal(Abstract(), ids).None? by {
        forall id | id in ids ensures store.proposals[id].status == Approved {
          var k :| 0 <= k < |ids| && ids[k] == id;
          assert stored[k].status == Approved;
        }
      }
      var plan := PlanBatch(stored, time);
      if plan.Err? {
        return Err(plan.error);
      }
      ghost var s := Abstract();
      authority := plan.value.0;
      assert Known(Abstract(), plan.value.1) by {
        forall p | p in stored ensures p.id in s.proposals {
          var k :| 0 <= k < |ids| && stored[k] == p;
          assert s.proposals[ids[k]].id == ids[k];
        }
        PlannedAreKnown(s, stored, time, |stored|);
      }
      r := FlushBatch(plan.value.1);
    }
  }

  lemma {:induction false} PlannedAreKnown(s: Sys, stored: seq<StoredProposal>, time: nat -> nat, n: nat)
    requires n <= |stored| && Plan(s, stored, time, n).Ok? && forall p <- stored :: p.id in s.proposals
    ensures Known(s, Plan(s, stored, time, n).value.1)
  {
    if n > 0 {
      PlannedAreKnown(s, stored, time, n - 1);
      assert stored[n - 1] in stored;
    }
  }

  /** Once a plan has failed it stays failed, for the same reason. */
  lemma {:induction false} FailedPlan(s: Sys, stored: seq<StoredProposal>, time: nat -> nat, m: nat, n: nat)
    requires m <= n <= |stored| && Plan(s, stored, time, m).Err?
    ensures Plan(s, stored, time, n) == Plan(s, stored, time, m)
    decreases n
  {
    if m < n {
      FailedPlan(s, stored, time, m, n - 1);
    }
  }
}
