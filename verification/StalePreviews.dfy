/** When the preview of a revert, made on a state read earlier, is refused although the record is stored by then. */
module StalePreviews {
  import opened Prelude
  import opened Authority
  import opened AuthorityLog
  import opened Interleaving
  import opened AuthoritySafety

  ghost predicate Recorded(log: seq<ChangeRecord>, changeId: string) {
    exists k :: 0 <= k < |log| && log[k].changeId == changeId
  }

  /** The caller has read `current` and has not previewed its change yet. */
  predicate Reading(g: Global, t: nat, current: LiveAuthorityState, change: AuthorityChange, discoveryRevision: nat) {
    t in g.tasks && g.tasks[t] == ProposeRead(current, change, discoveryRevision)
  }

  lemma BeginsReading(g: Global, a: Action, t: nat, current: LiveAuthorityState, change: AuthorityChange, discoveryRevision: nat)
    requires Reading(Next(g, a), t, current, change, discoveryRevision) && !Reading(g, t, current, change, discoveryRevision)
    ensures a == StartPropose(t, change, discoveryRevision) && g.sys.authority == current
  {
    hide Preview, Staleness, StoreProposal, CommitOne, CommitBatch;
  }

  /** The step at which a caller read the state it is about to preview on. */
  lemma {:induction false} ReadAtStep(states: seq<Global>, actions: seq<Action>, n: nat, t: nat, current: LiveAuthorityState,
                                      change: AuthorityChange, discoveryRevision: nat)
    returns (m: nat)
    requires IsRun(states, actions) && n <= |actions| && Reading(states[n], t, current, change, discoveryRevision)
    ensures m < n && actions[m] == StartPropose(t, change, discoveryRevision) && states[m].sys.authority == current
    ensures forall k :: m < k <= n ==> Reading(states[k], t, current, change, discoveryRevision)
  {
    hide Next;
    if Reading(states[n - 1], t, current, change, discoveryRevision) {
      m := ReadAtStep(states, actions, n - 1, t, current, change, discoveryRevision);
    } else {
      m := n - 1;
      BeginsReading(states[m], actions[m], t, current, change, discoveryRevision);
    }
  }

  /** Whether a revert can be previewed on the state reached by the first `k` records when all of them are visible. */
  lemma RevertAtExactly(log: seq<ChangeRecord>, changes: map<string, ChangeRecord>, k: nat, changeId: string)
    requires LogOk(log) && Stores(changes, log) && k <= |log|
    ensures var r := Preview(StateAt(log, k), Revert(changeId), changes);
            && (r.Ok? <==> Recorded(log[..k], changeId))
            && (r == Err(OlderAuthority) <==> Recorded(log, changeId) && !Recorded(log[..k], changeId))
            && (r == Err(NoSuchChange) <==> !Recorded(log, changeId))
  {
    hide Meaning, EndsInRevision;
    RevisionIsPosition(log, k);
    if changeId in changes {
      StoredIsSeen(changes, log);
      var j :| 0 <= j < |log| && log[j] == changes[changeId] && log[j].changeId == changeId;
      assert RecordOk(log, j);
      if j < k {
        assert log[..k][j].changeId == changeId;
      } else if Recorded(log[..k], changeId) {
        var i :| 0 <= i < |log[..k]| && log[..k][i].changeId == changeId;
        RevisionsSeparate(log, i, j);
      }
    }
  }

  /** Under every schedule the preview of a revert succeeds exactly when the record was committed before the caller
      read the live state, is refused as older exactly when it has been committed since, and as unknown exactly when
      there is no such record yet. */
  lemma RevertPreviewedExactly(states: seq<Global>, actions: seq<Action>, n: nat, changeId: string) returns (m: nat)
    requires IsRun(states, actions) && n < |actions| && actions[n].PreviewPropose? && actions[n].t in states[n].tasks
    requires states[n].tasks[actions[n].t].ProposeRead? && states[n].tasks[actions[n].t].change == Revert(changeId)
    ensures var (t, task) := (actions[n].t, states[n].tasks[actions[n].t]);
            && m < n && actions[m] == StartPropose(t, Revert(changeId), task.discoveryRevision)
            && states[m].sys.authority == task.current
            && (forall k :: m < k <= n ==> t in states[k].tasks && states[k].tasks[t] == task)
    ensures var r := Preview(states[n].tasks[actions[n].t].current, Revert(changeId), states[n].sys.changes);
            && (r.Ok? <==> Recorded(states[m].log, changeId))
            && (r == Err(OlderAuthority) <==> Recorded(states[n].log, changeId) && !Recorded(states[m].log, changeId))
            && (r == Err(NoSuchChange) <==> !Recorded(states[n].log, changeId))
            && (actions[n].t in states[n + 1].tasks <==> r.Ok?)
  {
    hide Inv, Preview, Recorded, Next;
    var t, task := actions[n].t, states[n].tasks[actions[n].t];
    m := ReadAtStep(states, actions, n, t, task.current, task.change, task.discoveryRevision);
    EveryScheduleKeepsInv(states, actions, m);
    EveryScheduleKeepsInv(states, actions, n);
    AuthorityIsLast(states[m]);
    InvLog(states[n]);
    LogsExtend(states, actions, m, n);
    var log, k := states[n].log, |states[m].log|;
    assert log[..k] == states[m].log;
    SamePast(states[m].log, log);
    RevertAtExactly(log, states[n].sys.changes, k, changeId);
    PreviewStep(states[n], t);
    assert forall i :: m < i <= n ==> Reading(states[i], t, task.current, task.change, task.discoveryRevision);
  }

  lemma SamePast(log: seq<ChangeRecord>, longer: seq<ChangeRecord>)
    requires log <= longer
    ensures StateAt(longer, |log|) == StateAt(log, |log|)
  {
    assert longer == log + longer[|log|..];
    PastIsFixed(log, longer[|log|..], |log|, Revert(""));
  }

  lemma PreviewStep(g: Global, t: nat)
    requires t in g.tasks && g.tasks[t].ProposeRead?
    ensures t in Next(g, PreviewPropose(t)).tasks <==> Preview(g.tasks[t].current, g.tasks[t].change, g.sys.changes).Ok?
  {
    hide Preview;
  }
}
