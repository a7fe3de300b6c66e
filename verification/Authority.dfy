/** Live authority: changes, proposals and change records, and what each operation does to them. */
module Authority {
  import opened Prelude
  import opened Text
  import Evaluator
  import opened Declaration

  datatype HttpMethod = Get | Post | Put | Patch | Delete | Head | Options

  datatype RouteId = RouteId(httpMethod: HttpMethod, path: string)

  /** What is currently permitted: the part of the state a preview shows. */
  datatype PreviewState = PreviewState(
    routes: map<RouteId, string>, policies: map<string, Evaluator.Policy>, providers: map<string, bool>,
    passwordPolicy: Option<PasswordPolicy>)

  datatype LiveAuthorityState = LiveAuthorityState(view: PreviewState, revision: nat)

  const INITIAL := LiveAuthorityState(PreviewState(map[], map[], map[], None), 0)

  datatype AuthorityChange =
    | ProtectRoute(httpMethod: HttpMethod, path: string, capability: string)
    | UnprotectRoute(httpMethod: HttpMethod, path: string)
    | SetCapabilityPolicy(capability: string, policy: Evaluator.Policy)
    | SetProviderEnabled(provider: string, enabled: bool)
    | SetPasswordPolicy(passwordPolicy: PasswordPolicy)
    | Revert(changeId: string)

  datatype ProposalStatus = Pending | Approved | Applied | Rejected | Active | Orphaned | Stale | Superseded

  datatype Error =
    | InvalidPasswordPolicy | RevertNeedsRecord | RevertMismatch | OlderAuthority | NoSuchChange
    | NoSuchProposal | ProposalExists | AlreadyApplied | AlreadyRejected | NeedsReview | NotApproved
    | StaleFingerprint | StaleRevision | ApprovalMismatch | ConflictsWithNewer

  datatype ChangeRecord = ChangeRecord(
    changeId: string, proposalId: string, change: AuthorityChange, previous: LiveAuthorityState,
    resulting: LiveAuthorityState, revertedChangeId: Option<string>)

  datatype StoredProposal = StoredProposal(
    id: string, change: AuthorityChange, before: PreviewState, after: PreviewState, revision: nat,
    fingerprint: string, discoveryRevision: nat, status: ProposalStatus, changeId: Option<string>,
    rejectionReason: Option<string>)

  datatype ChangeProposal = ChangeProposal(
    id: string, change: AuthorityChange, before: PreviewState, after: PreviewState, revision: nat)

  /** The token is the digest of the change, here the change itself. */
  datatype Approval = Approval(token: AuthorityChange)

  // ----- Changes --------------------------------------------------------------------------------

  function ChangedView(view: PreviewState, change: AuthorityChange): Result<PreviewState, Error> {
    match change
    case ProtectRoute(m, path, capability) => Ok(view.(routes := view.routes[RouteId(m, path) := capability]))
    case UnprotectRoute(m, path) => Ok(view.(routes := view.routes - {RouteId(m, path)}))
    case SetCapabilityPolicy(capability, policy) => Ok(view.(policies := view.policies[capability := policy]))
    case SetProviderEnabled(provider, enabled) => Ok(view.(providers := view.providers[provider := enabled]))
    case SetPasswordPolicy(policy) =>
      if policy.IsValid() then Ok(view.(passwordPolicy := Some(policy))) else Err(InvalidPasswordPolicy)
    case Revert(_) => Err(RevertNeedsRecord)
  }

  function ApplyChange(current: LiveAuthorityState, change: AuthorityChange): Result<LiveAuthorityState, Error> {
    match ChangedView(current.view, change)
    case Err(e) => Err(e)
    case Ok(view) => Ok(LiveAuthorityState(view, current.revision + 1))
  }

  function ApplyRevert(current: LiveAuthorityState, changeId: string, record: ChangeRecord)
    : Result<LiveAuthorityState, Error>
  {
    if record.changeId != changeId then Err(RevertMismatch)
    else if current.revision < record.resulting.revision then Err(OlderAuthority)
    else Ok(LiveAuthorityState(record.previous.view, current.revision + 1))
  }

  /** The state a change would lead to, given the change records a revert may look up. */
  function Preview(current: LiveAuthorityState, change: AuthorityChange, changes: map<string, ChangeRecord>)
    : Result<LiveAuthorityState, Error>
  {
    if change.Revert? then
      if change.changeId !in changes then Err(NoSuchChange)
      else ApplyRevert(current, change.changeId, changes[change.changeId])
    else ApplyChange(current, change)
  }

  // ----- Identifiers ----------------------------------------------------------------------------

  function ProposalId(n: nat): string {
    "proposal-" + Decimal(n)
  }

  /** Records of a batch also carry their position. */
  function ChangeId(millis: nat, index: Option<nat>, revision: nat): string {
    "change-" + Decimal(millis) + (if index.Some? then "-" + Decimal(index.value) else "") + "-rev" + Decimal(revision)
  }

  lemma ProposalIdIsInjective(m: nat, n: nat)
    requires ProposalId(m) == ProposalId(n)
    ensures m == n
  {
    assert "proposal-" + Decimal(m) == "proposal" + ['-'] + Decimal(m);
    assert "proposal-" + Decimal(n) == "proposal" + ['-'] + Decimal(n);
    SuffixIsInjective("proposal", "proposal", '-', m, n);
  }

  /** Whatever the clock shows, the ids of changes with different resulting revisions differ. */
  lemma ChangeIdTellsRevision(m: nat, i: Option<nat>, r: nat, n: nat, j: Option<nat>, q: nat)
    requires ChangeId(m, i, r) == ChangeId(n, j, q)
    ensures r == q
  {
    var a := "change-" + Decimal(m) + (if i.Some? then "-" + Decimal(i.value) else "") + "-re";
    var b := "change-" + Decimal(n) + (if j.Some? then "-" + Decimal(j.value) else "") + "-re";
    assert ChangeId(m, i, r) == a + ['v'] + Decimal(r);
    assert ChangeId(n, j, q) == b + ['v'] + Decimal(q);
    SuffixIsInjective(a, b, 'v', r, q);
  }

  function RecordFor(id: string, proposalId: string, change: AuthorityChange, previous: LiveAuthorityState,
                     resulting: LiveAuthorityState): ChangeRecord
  {
    ChangeRecord(id, proposalId, change, previous, resulting,
                 if change.Revert? then Some(change.changeId) else None)
  }

  // ----- The whole system -----------------------------------------------------------------------

  /** The contract fingerprint, the live state, and the three fields of the proposal store. */
  datatype Sys = Sys(
    fingerprint: string, authority: LiveAuthorityState, proposals: map<string, StoredProposal>,
    changes: map<string, ChangeRecord>, nextId: nat)

  function Propose(s: Sys, change: AuthorityChange, discoveryRevision: nat): (Sys, Result<ChangeProposal, Error>) {
    match Preview(s.authority, change, s.changes)
    case Err(e) => (s, Err(e))
    case Ok(after) => StoreProposal(s, s.authority, after, change, discoveryRevision)
  }

  /** Takes the next proposal id and stores the previewed change under it. */
  function StoreProposal(s: Sys, current: LiveAuthorityState, after: LiveAuthorityState, change: AuthorityChange,
                         discoveryRevision: nat): (Sys, Result<ChangeProposal, Error>)
  {
    var id := ProposalId(s.nextId);
    var s1 := s.(nextId := s.nextId + 1);
    if id in s.proposals then (s1, Err(ProposalExists))
    else
      (s1.(proposals := s.proposals[id := StoredProposal(id, change, current.view, after.view, current.revision,
                                                         s.fingerprint, discoveryRevision, Pending, None, None)]),
       Ok(ChangeProposal(id, change, current.view, after.view, current.revision)))
  }

  /** Is the stored proposal still about the live state, and can it still be previewed? */
  function Staleness(s: Sys, p: StoredProposal): Option<Error> {
    if p.fingerprint != s.fingerprint then Some(StaleFingerprint)
    else if p.revision != s.authority.revision then Some(StaleRevision)
    else match Preview(s.authority, p.change, s.changes)
      case Err(e) => Some(e)
      case Ok(_) => None
  }

  function ApproveRefusal(status: ProposalStatus): Option<Error> {
    match status
    case Pending => None
    case Approved => None
    case Applied => Some(AlreadyApplied)
    case Rejected => Some(AlreadyRejected)
    case _ => Some(NeedsReview)
  }

  function SetStatus(s: Sys, id: string, status: ProposalStatus): Sys
    requires id in s.proposals
  {
    s.(proposals := s.proposals[id := s.proposals[id].(status := status)])
  }

  function Approve(s: Sys, id: string): (Sys, Result<(), Error>) {
    if id !in s.proposals then (s, Err(NoSuchProposal))
    else
      var p := s.proposals[id];
      if ApproveRefusal(p.status).Some? then (s, Err(ApproveRefusal(p.status).value))
      else if p.status == Approved then (s, Ok(()))
      else if Staleness(s, p).Some? then (s, Err(Staleness(s, p).value))
      else (SetStatus(s, id, Approved), Ok(()))
  }

  function Reject(s: Sys, id: string, reason: string): (Sys, Result<(), Error>) {
    if id !in s.proposals then (s, Err(NoSuchProposal))
    else if s.proposals[id].status == Applied then (s, Err(AlreadyApplied))
    else if s.proposals[id].status == Rejected then (s, Ok(()))
    else (MarkRejected(s, id, reason), Ok(()))
  }

  function MarkRejected(s: Sys, id: string, reason: string): Sys
    requires id in s.proposals
  {
    s.(proposals := s.proposals[id := s.proposals[id].(status := Rejected, rejectionReason := Some(reason))])
  }

  /** Marks the proposal of a record applied and stores the record. */
  function Flush(s: Sys, record: ChangeRecord): Sys
    requires record.proposalId in s.proposals
  {
    var p := s.proposals[record.proposalId].(status := Applied, changeId := Some(record.changeId));
    s.(proposals := s.proposals[record.proposalId := p], changes := s.changes[record.changeId := record])
  }

  /** The section of `apply_change` that runs under the authority lock. */
  function CommitOne(s: Sys, proposal: ChangeProposal, millis: nat): (Sys, Result<string, Error>) {
    if proposal.revision != s.authority.revision then (s, Err(ConflictsWithNewer))
    else match Preview(s.authority, proposal.change, s.changes)
      case Err(e) => (s, Err(e))
      case Ok(next) =>
        var id := ChangeId(millis, None, next.revision);
        var s1 := s.(authority := next);
        if proposal.id !in s.proposals then (s1, Err(NoSuchProposal))
        else (Flush(s1, RecordFor(id, proposal.id, proposal.change, s.authority, next)), Ok(id))
  }

  function ProposalOf(p: StoredProposal): ChangeProposal {
    ChangeProposal(p.id, p.change, p.before, p.after, p.revision)
  }

  function ApplyStored(s: Sys, id: string, approval: Approval, millis: nat): (Sys, Result<(string, nat), Error>) {
    if id !in s.proposals then (s, Err(NoSuchProposal))
    else
      var p := s.proposals[id];
      if p.status != Approved then (s, Err(NotApproved))
      else if Staleness(s, p).Some? then (s, Err(Staleness(s, p).value))
      else if approval.token != p.change then (s, Err(ApprovalMismatch))
      else
        var (t, r) := CommitOne(s, ProposalOf(p), millis);
        (t, if r.Ok? then Ok((r.value, t.authority.revision)) else Err(r.error))
  }

  // ----- Batches --------------------------------------------------------------------------------

  /** Why the listed proposals may not be applied together, looking at the store alone. */
  function BatchRefusal(s: Sys, ids: seq<string>): Option<Error> {
    if exists id <- ids :: id !in s.proposals then Some(NoSuchProposal)
    else if exists id <- ids :: s.proposals[id].status != Approved then Some(NotApproved)
    else None
  }

  /** The state and records after the first `n` proposals of a batch; every preview sees the records stored
      before the batch. */
  function Plan(s: Sys, stored: seq<StoredProposal>, time: nat -> nat, n: nat)
    : Result<(LiveAuthorityState, seq<ChangeRecord>), Error>
    requires n <= |stored|
  {
    if n == 0 then Ok((s.authority, []))
    else match Plan(s, stored, time, n - 1)
      case Err(e) => Err(e)
      case Ok((before, records)) => PlanStep(s, before, records, stored[n - 1], time(n - 1), n - 1)
  }

  function PlanStep(s: Sys, before: LiveAuthorityState, records: seq<ChangeRecord>, p: StoredProposal, millis: nat,
                    index: nat): Result<(LiveAuthorityState, seq<ChangeRecord>), Error>
  {
    if p.fingerprint != s.fingerprint then Err(StaleFingerprint)
    else if p.revision != s.authority.revision then Err(StaleRevision)
    else match Preview(before, p.change, s.changes)
      case Err(e) => Err(e)
      case Ok(next) =>
        Ok((next, records + [RecordFor(ChangeId(millis, Some(index), next.revision), p.id, p.change, before, next)]))
  }

  predicate Known(s: Sys, records: seq<ChangeRecord>) {
    forall r <- records :: r.proposalId in s.proposals
  }

  function FlushAll(s: Sys, records: seq<ChangeRecord>): (t: Sys)
    requires Known(s, records)
    ensures t.proposals.Keys == s.proposals.Keys
  {
    if records == [] then s
    else
      var t := FlushAll(s, records[..|records| - 1]);
      var last := records[|records| - 1];
      assert last in records;
      Flush(t, last)
  }

  /** The section of a batch that runs under the authority lock. */
  function CommitBatch(s: Sys, stored: seq<StoredProposal>, time: nat -> nat)
    : (Sys, Result<seq<ChangeRecord>, Error>)
  {
    match Plan(s, stored, time, |stored|)
    case Err(e) => (s, Err(e))
    case Ok((next, records)) =>
      var s1 := s.(authority := next);
      if !Known(s, records) then (s1, Err(NoSuchProposal)) else (FlushAll(s1, records), Ok(records))
  }

  function StoredOf(s: Sys, ids: seq<string>): (r: seq<StoredProposal>)
    requires forall id <- ids :: id in s.proposals
    ensures |r| == |ids| && forall i :: 0 <= i < |ids| ==> r[i] == s.proposals[ids[i]]
  {
    seq(|ids|, i requires 0 <= i < |ids| => s.proposals[ids[i]])
  }

  function ApplyBatch(s: Sys, ids: seq<string>, time: nat -> nat): (Sys, Result<seq<ChangeRecord>, Error>) {
    if ids == [] then (s, Ok([]))
    else if BatchRefusal(s, ids).Some? then (s, Err(BatchRefusal(s, ids).value))
    else CommitBatch(s, StoredOf(s, ids), time)
  }
}
