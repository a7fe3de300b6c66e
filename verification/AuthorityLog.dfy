/** The change log as history: what the records of all commits say about each other and about the live state. */
module AuthorityLog {
  import opened Prelude
  import opened Authority

  /** The state after the first `k` records. */
  function StateAt(log: seq<ChangeRecord>, k: nat): LiveAuthorityState
    requires k <= |log|
  {
    if k == 0 then INITIAL else log[k - 1].resulting
  }

  function IndexOf(log: seq<ChangeRecord>, changeId: string): Option<nat> {
    IndexWhere(log, (r: ChangeRecord) => r.changeId == changeId)
  }

  /** What a change means to someone who only knows the first `k` records: a revert goes back to the state
      before the record it names. */
  function Meaning(log: seq<ChangeRecord>, k: nat, change: AuthorityChange): Option<PreviewState>
    requires k <= |log|
  {
    if change.Revert? then
      match IndexOf(log[..k], change.changeId)
      case None => None
      case Some(j) => assert j < |log[..k]|; Some(StateAt(log, j).view)
    else
      match ChangedView(StateAt(log, k).view, change)
      case Err(_) => None
      case Ok(view) => Some(view)
  }

  ghost predicate EndsInRevision(changeId: string, revision: nat) {
    exists m, i :: changeId == ChangeId(m, i, revision)
  }

  /** Each record starts where the previous one ended, adds one to the revision, and does what its change means. */
  ghost predicate RecordOk(log: seq<ChangeRecord>, k: nat)
    requires k < |log|
  {
    && log[k].previous == StateAt(log, k)
    && log[k].resulting.revision == k + 1
    && EndsInRevision(log[k].changeId, k + 1)
    && Meaning(log, k, log[k].change) == Some(log[k].resulting.view)
  }

  ghost predicate LogOk(log: seq<ChangeRecord>) {
    forall k :: 0 <= k < |log| ==> RecordOk(log, k)
  }

  /** The stored records are exactly those of the log, none lost and none overwritten. */
  ghost predicate Stores(changes: map<string, ChangeRecord>, log: seq<ChangeRecord>) {
    && (forall k :: 0 <= k < |log| ==> log[k].changeId in changes && changes[log[k].changeId] == log[k])
    && (forall id <- changes :: exists k :: 0 <= k < |log| && log[k].changeId == id)
  }

  lemma RevisionsSeparate(log: seq<ChangeRecord>, i: nat, j: nat)
    requires LogOk(log) && i < |log| && j < |log| && log[i].changeId == log[j].changeId
    ensures i == j
  {
    assert RecordOk(log, i) && RecordOk(log, j);
    var m, a :| log[i].changeId == ChangeId(m, a, i + 1);
    var n, b :| log[j].changeId == ChangeId(n, b, j + 1);
    ChangeIdTellsRevision(m, a, i + 1, n, b, j + 1);
  }

  lemma IndexOfRecord(log: seq<ChangeRecord>, k: nat, j: nat)
    requires LogOk(log) && j < k <= |log|
    ensures IndexOf(log[..k], log[j].changeId) == Some(j)
  {
    var found := IndexOf(log[..k], log[j].changeId);
    assert log[..k][j].changeId == log[j].changeId;
    RevisionsSeparate(log, found.value, j);
  }

  /** Extending the log changes nothing about its past. */
  lemma PastIsFixed(log: seq<ChangeRecord>, more: seq<ChangeRecord>, k: nat, change: AuthorityChange)
    requires k <= |log|
    ensures StateAt(log + more, k) == StateAt(log, k)
    ensures Meaning(log + more, k, change) == Meaning(log, k, change)
  {
    assert (log + more)[..k] == log[..k];
    if change.Revert? {
      var j := IndexOf(log[..k], change.changeId);
      if j.Some? {
        assert j.value < |log[..k]|;
        assert StateAt(log + more, j.value) == StateAt(log, j.value);
      }
    }
  }

  /** `seen` is what a preview may look up: some of the stored records. */
  ghost predicate SeesOnly(seen: map<string, ChangeRecord>, log: seq<ChangeRecord>) {
    forall id <- seen :: exists k :: 0 <= k < |log| && log[k] == seen[id] && log[k].changeId == id
  }

  lemma StoredIsSeen(changes: map<string, ChangeRecord>, log: seq<ChangeRecord>)
    requires Stores(changes, log)
    ensures SeesOnly(changes, log)
  {
    forall id | id in changes ensures exists k :: 0 <= k < |log| && log[k] == changes[id] && log[k].changeId == id {
      var k :| 0 <= k < |log| && log[k].changeId == id;
      assert changes[log[k].changeId] == log[k];
    }
  }

  /** A successful preview at a recorded state raises the revision by one and yields what the change means,
      even when records made since are visible. */
  lemma PreviewMeans(log: seq<ChangeRecord>, seen: map<string, ChangeRecord>, k: nat, change: AuthorityChange)
    requires LogOk(log) && SeesOnly(seen, log) && k <= |log|
    requires StateAt(log, k).revision == k && Preview(StateAt(log, k), change, seen).Ok?
    ensures var next := Preview(StateAt(log, k), change, seen).value;
            next.revision == k + 1 && Meaning(log, k, change) == Some(next.view)
  {
    if change.Revert? {
      var record := seen[change.changeId];
      var j :| 0 <= j < |log| && log[j] == record && log[j].changeId == change.changeId;
      assert RecordOk(log, j);
      IndexOfRecord(log, k, j);
    }
  }

  lemma RevisionIsPosition(log: seq<ChangeRecord>, k: nat)
    requires LogOk(log) && k <= |log|
    ensures StateAt(log, k).revision == k
  {
    if k > 0 {
      assert RecordOk(log, k - 1);
    }
  }

  /** At the newest state no preview of a stored record is refused as older: a revert fails only when the
      record does not exist. */
  lemma GuardNeverRejects(log: seq<ChangeRecord>, changes: map<string, ChangeRecord>, changeId: string)
    requires LogOk(log) && Stores(changes, log)
    ensures var r := Preview(StateAt(log, |log|), Revert(changeId), changes);
            if changeId in changes then r.Ok? else r == Err(NoSuchChange)
  {
    if changeId in changes {
      StoredIsSeen(changes, log);
      var k :| 0 <= k < |log| && log[k] == changes[changeId] && log[k].changeId == changeId;
      assert RecordOk(log, k);
      RevisionIsPosition(log, |log|);
    }
  }

  /** Appending the record of a previewed change keeps the log in order. */
  lemma PushKeepsLog(log: seq<ChangeRecord>, seen: map<string, ChangeRecord>, record: ChangeRecord)
    requires LogOk(log) && SeesOnly(seen, log)
    requires record.previous == StateAt(log, |log|)
    requires Preview(record.previous, record.change, seen) == Ok(record.resulting)
    requires EndsInRevision(record.changeId, |log| + 1)
    ensures LogOk(log + [record])
    ensures forall k :: 0 <= k < |log| ==> log[k].changeId != record.changeId
  {
    hide Meaning, Preview, StateAt, EndsInRevision, IndexOf;
    var longer := log + [record];
    RevisionIsPosition(log, |log|);
    PreviewMeans(log, seen, |log|, record.change);
    forall k | 0 <= k < |longer| ensures RecordOk(longer, k) {
      if k < |log| {
        assert RecordOk(log, k);
        PastIsFixed(log, [record], k, log[k].change);
      } else {
        PastIsFixed(log, [record], |log|, record.change);
      }
    }
    forall k | 0 <= k < |log| ensures log[k].changeId != record.changeId {
      if log[k].changeId == record.changeId {
        RevisionsSeparate(longer, k, |log|);
      }
    }
  }

  lemma PushKeepsStores(log: seq<ChangeRecord>, changes: map<string, ChangeRecord>, record: ChangeRecord)
    requires Stores(changes, log)
    requires forall k :: 0 <= k < |log| ==> log[k].changeId != record.changeId
    ensures Stores(changes[record.changeId := record], log + [record])
  {
    var longer, after := log + [record], changes[record.changeId := record];
    assert longer[|log|] == record;
    forall id | id in after ensures exists k :: 0 <= k < |longer| && longer[k].changeId == id {
      if id != record.changeId {
        var k :| 0 <= k < |log| && log[k].changeId == id;
        assert longer[k].changeId == id;
      }
    }
  }

  // ----- Replaying ------------------------------------------------------------------------------

  /** The content reached by carrying out the first `n` changes alone, without looking at any recorded state. */
  function Replay(log: seq<ChangeRecord>, n: nat): PreviewState
    requires n <= |log|
    decreases n
  {
    if n == 0 then INITIAL.view
    else if log[n - 1].change.Revert? then
      match IndexOf(log[..n - 1], log[n - 1].change.changeId)
      case None => Replay(log, n - 1)
      case Some(j) => assert j < |log[..n - 1]|; Replay(log, j)
    else
      match ChangedView(Replay(log, n - 1), log[n - 1].change)
      case Err(_) => Replay(log, n - 1)
      case Ok(view) => view
  }

  /** The recorded snapshots agree with replaying the changes. */
  lemma {:induction false} SnapshotsAreReplays(log: seq<ChangeRecord>, n: nat)
    requires LogOk(log) && n <= |log|
    ensures StateAt(log, n).view == Replay(log, n)
    decreases n
  {
    if n > 0 {
      assert RecordOk(log, n - 1);
      var change := log[n - 1].change;
      if change.Revert? {
        var j := IndexOf(log[..n - 1], change.changeId);
        assert j.value < |log[..n - 1]|;
        SnapshotsAreReplays(log, j.value);
      } else {
        SnapshotsAreReplays(log, n - 1);
      }
    }
  }

  /** Reverting the record at position `k` from any later state restores the content reached by replaying
      the `k` changes before it; in particular reverting a revert restores the content just before it. */
  lemma RevertRestores(log: seq<ChangeRecord>, changes: map<string, ChangeRecord>, k: nat)
    requires LogOk(log) && Stores(changes, log) && k < |log|
    ensures Preview(StateAt(log, |log|), Revert(log[k].changeId), changes) ==
            Ok(LiveAuthorityState(Replay(log, k), |log| + 1))
  {
    hide LogOk, SeesOnly, Replay, Preview;
    GuardNeverRejects(log, changes, log[k].changeId);
    StoredIsSeen(changes, log);
    RevisionIsPosition(log, |log|);
    PreviewMeans(log, changes, |log|, Revert(log[k].changeId));
    IndexOfRecord(log, |log|, k);
    SnapshotsAreReplays(log, k);
  }

  lemma RevertingARevertRestores(log: seq<ChangeRecord>, changes: map<string, ChangeRecord>, i: nat, k: nat)
    requires LogOk(log) && Stores(changes, log) && i < k < |log| && log[k].change == Revert(log[i].changeId)
    ensures Replay(log, k + 1) == Replay(log, i)
    ensures Preview(StateAt(log, |log|), Revert(log[k].changeId), changes).Ok?
    ensures Preview(StateAt(log, |log|), Revert(log[k].changeId), changes).value.view == log[k].previous.view
  {
    IndexOfRecord(log, k, i);
    RevertRestores(log, changes, k);
    SnapshotsAreReplays(log, k);
    assert RecordOk(log, k);
  }

  /** Every recorded state keeps a usable password policy. */
  lemma {:induction false} PasswordPolicyStaysValid(log: seq<ChangeRecord>, n: nat)
    requires LogOk(log) && n <= |log|
    ensures var p := StateAt(log, n).view.passwordPolicy; p.Some? ==> 1 <= p.value.minLength <= p.value.maxLength
    decreases n
  {
    if n > 0 {
      assert RecordOk(log, n - 1);
      var change := log[n - 1].change;
      if change.Revert? {
        var j := IndexOf(log[..n - 1], change.changeId);
        assert j.value < |log[..n - 1]|;
        PasswordPolicyStaysValid(log, j.value);
      } else {
        PasswordPolicyStaysValid(log, n - 1);
      }
    }
  }
}
