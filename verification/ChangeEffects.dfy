/** What each change does, setting by setting, and where the live value of a setting comes from under any schedule. */
module ChangeEffects {
  import opened Prelude
  import Evaluator
  import opened Declaration
  import opened Authority
  import opened AuthorityLog
  import opened Interleaving
  import opened AuthoritySafety

  // ----- Settings -----------------------------------------------------------------------------------

  /** Everything that can be set. */
  datatype Key = RouteKey(route: RouteId) | PolicyKey(capability: string) | ProviderKey(provider: string) | PasswordKey

  datatype Setting =
    | Needs(capability: string) | Follows(policy: Evaluator.Policy) | Switched(enabled: bool) | Passwords(bounds: PasswordPolicy)

  function At<K, V>(m: map<K, V>, k: K): Option<V> {
    if k in m then Some(m[k]) else None
  }

  /** The value of a setting, if it has one. */
  function Value(view: PreviewState, key: Key): Option<Setting> {
    match key
    case RouteKey(route) => if route in view.routes then Some(Needs(view.routes[route])) else None
    case PolicyKey(capability) => if capability in view.policies then Some(Follows(view.policies[capability])) else None
    case ProviderKey(provider) => if provider in view.providers then Some(Switched(view.providers[provider])) else None
    case PasswordKey => if view.passwordPolicy.Some? then Some(Passwords(view.passwordPolicy.value)) else None
  }

  /** The settings are all there is to a state. */
  lemma ValuesDecide(a: PreviewState, b: PreviewState)
    ensures a == b <==> forall key :: Value(a, key) == Value(b, key)
  {
    if forall key :: Value(a, key) == Value(b, key) {
      forall r: RouteId ensures At(a.routes, r) == At(b.routes, r) {
        assert Value(a, RouteKey(r)) == Value(b, RouteKey(r));
      }
      forall c: string ensures At(a.policies, c) == At(b.policies, c) && At(a.providers, c) == At(b.providers, c) {
        assert Value(a, PolicyKey(c)) == Value(b, PolicyKey(c)) && Value(a, ProviderKey(c)) == Value(b, ProviderKey(c));
      }
      assert Value(a, PasswordKey) == Value(b, PasswordKey);
      SameMap(a.routes, b.routes);
      SameMap(a.policies, b.policies);
      SameMap(a.providers, b.providers);
    }
  }

  lemma SameMap<K, V>(m: map<K, V>, n: map<K, V>)
    requires forall k :: At(m, k) == At(n, k)
    ensures m == n
  {
    forall k ensures k in m <==> k in n {
      assert At(m, k) == At(n, k);
    }
    forall k | k in m ensures m[k] == n[k] {
      assert At(m, k) == At(n, k);
    }
  }

  /** What a change says about a setting: nothing, that it is to have a value, or that it is to have none. */
  function Says(change: AuthorityChange, key: Key): Option<Option<Setting>> {
    match (change, key)
    case (ProtectRoute(m, path, capability), RouteKey(route)) =>
      if route == RouteId(m, path) then Some(Some(Needs(capability))) else None
    case (UnprotectRoute(m, path), RouteKey(route)) => if route == RouteId(m, path) then Some(None) else None
    case (SetCapabilityPolicy(capability, policy), PolicyKey(c)) => if c == capability then Some(Some(Follows(policy))) else None
    case (SetProviderEnabled(provider, enabled), ProviderKey(p)) => if p == provider then Some(Some(Switched(enabled))) else None
    case (SetPasswordPolicy(policy), PasswordKey) => Some(Some(Passwords(policy)))
    case _ => None
  }

  /** A change is applied exactly when it is no revert and a password policy it sets has usable bounds; then it raises the
      revision by one, gives the setting it names the value it asks for, or none, and leaves every other setting alone. */
  lemma ChangeMeans(current: LiveAuthorityState, change: AuthorityChange)
    ensures var r := ApplyChange(current, change);
            && (r.Ok? <==> !change.Revert? && (change.SetPasswordPolicy? ==>
                  1 <= change.passwordPolicy.minLength <= change.passwordPolicy.maxLength))
            && (r.Ok? ==>
                  && r.value.revision == current.revision + 1
                  && forall key :: Value(r.value.view, key) ==
                       if Says(change, key).Some? then Says(change, key).value else Value(current.view, key))
  {
  }

  /** A revert handed its record is applied exactly when that record is the one named and no newer than the live state; then
      every setting has the value it had before the record. */
  lemma RevertMeans(current: LiveAuthorityState, changeId: string, record: ChangeRecord)
    ensures var r := ApplyRevert(current, changeId, record);
            && (r == Err(RevertMismatch) <==> record.changeId != changeId)
            && (r == Err(OlderAuthority) <==> record.changeId == changeId && current.revision < record.resulting.revision)
            && (r.Ok? <==> record.changeId == changeId && record.resulting.revision <= current.revision)
            && (r.Ok? ==> r.value.revision == current.revision + 1
                          && forall key :: Value(r.value.view, key) == Value(record.previous.view, key))
  {
  }

  /** The same of what a log says a change means. */
  lemma MeaningSays(log: seq<ChangeRecord>, k: nat, change: AuthorityChange, key: Key)
    requires k <= |log| && !change.Revert? && Meaning(log, k, change).Some?
    ensures Value(Meaning(log, k, change).value, key) ==
            if Says(change, key).Some? then Says(change, key).value else Value(StateAt(log, k).view, key)
  {
  }

  // ----- Which changes are in force -------------------------------------------------------------------

  /** The records in force after the first `n`, by position: a revert puts those before the record it names back in
      force. */
  function InForce(log: seq<ChangeRecord>, n: nat): seq<nat>
    requires n <= |log|
    decreases n
  {
    if n == 0 then []
    else if !log[n - 1].change.Revert? then InForce(log, n - 1) + [n - 1]
    else
      match IndexOf(log[..n - 1], log[n - 1].change.changeId)
      case Some(j) => assert j < |log[..n - 1]|; InForce(log, j)
      case None => InForce(log, n - 1)
  }

  ghost predicate InOrder(log: seq<ChangeRecord>, line: seq<nat>, n: nat)
    requires n <= |log|
  {
    && (forall i :: 0 <= i < |line| ==> line[i] < n && !log[line[i]].change.Revert?)
    && (forall i, j :: 0 <= i < j < |line| ==> line[i] < line[j])
  }

  lemma OneMoreInOrder(log: seq<ChangeRecord>, line: seq<nat>, k: nat, n: nat)
    requires k < n <= |log| && InOrder(log, line, k) && !log[k].change.Revert?
    ensures InOrder(log, line + [k], n)
  {
    var longer := line + [k];
    assert forall i :: 0 <= i < |line| ==> longer[i] == line[i];
  }

  /** They stand in order, and none is a revert. */
  lemma {:induction false} InForceInOrder(log: seq<ChangeRecord>, n: nat)
    requires n <= |log|
    ensures InOrder(log, InForce(log, n), n)
    decreases n
  {
    if n > 0 {
      if !log[n - 1].change.Revert? {
        InForceInOrder(log, n - 1);
        OneMoreInOrder(log, InForce(log, n - 1), n - 1, n);
      } else {
        var j := IndexOf(log[..n - 1], log[n - 1].change.changeId);
        var back := if j.Some? then j.value else n - 1;
        assert j.Some? ==> j.value < |log[..n - 1]|;
        InForceInOrder(log, back);
        assert InForce(log, n) == InForce(log, back);
      }
    }
  }

  /** After the last revert, of the record at `j`, those in force are the ones before `j` and all later ones. */
  lemma {:induction false} InForceSince(log: seq<ChangeRecord>, r: nat, j: nat, n: nat)
    requires LogOk(log) && j < r < n <= |log| && log[r].change == Revert(log[j].changeId)
    requires forall k :: r < k < n ==> !log[k].change.Revert?
    ensures InForce(log, n) == InForce(log, j) + seq(n - r - 1, i => r + 1 + i)
    decreases n
  {
    if n == r + 1 {
      IndexOfRecord(log, r, j);
      assert seq(n - r - 1, i => r + 1 + i) == [];
      assert InForce(log, n) == InForce(log, j);
    } else {
      InForceSince(log, r, j, n - 1);
      assert seq(n - r - 1, i => r + 1 + i) == seq(n - 1 - r - 1, i => r + 1 + i) + [n - 1];
    }
  }

  /** The records at these positions exist. */
  ghost predicate Within(log: seq<ChangeRecord>, line: seq<nat>) {
    forall i :: 0 <= i < |line| ==> line[i] < |log|
  }

  /** What the last change on the line that names the setting says. */
  ghost function LastSaid(log: seq<ChangeRecord>, line: seq<nat>, key: Key): Option<Setting>
    requires Within(log, line)
  {
    if line == [] then None
    else
      var last := line[|line| - 1];
      if Says(log[last].change, key).Some? then Says(log[last].change, key).value
      else LastSaid(log, line[..|line| - 1], key)
  }

  /** The change at `i` on the line is the last to name the setting. */
  ghost predicate NamesLast(log: seq<ChangeRecord>, line: seq<nat>, i: nat, key: Key)
    requires Within(log, line)
  {
    && i < |line| && Says(log[line[i]].change, key).Some?
    && forall j :: i < j < |line| ==> Says(log[line[j]].change, key).None?
  }

  lemma LastSaidStep(log: seq<ChangeRecord>, line: seq<nat>, k: nat, key: Key)
    requires Within(log, line) && k < |log|
    ensures Within(log, line + [k])
    ensures LastSaid(log, line + [k], key) ==
            if Says(log[k].change, key).Some? then Says(log[k].change, key).value else LastSaid(log, line, key)
  {
    hide Says;
    assert (line + [k])[..|line|] == line;
  }

  /** The value after a record that is no revert. */
  lemma ValueStep(log: seq<ChangeRecord>, n: nat, key: Key)
    requires LogOk(log) && 0 < n <= |log| && !log[n - 1].change.Revert?
    ensures Value(StateAt(log, n).view, key) ==
            if Says(log[n - 1].change, key).Some? then Says(log[n - 1].change, key).value else Value(StateAt(log, n - 1).view, key)
  {
    hide Says, Value, Meaning, EndsInRevision;
    RecordMeans(log, n - 1);
    MeaningSays(log, n - 1, log[n - 1].change, key);
  }

  /** The state after a revert is the one before the record it names. */
  lemma RevertStep(log: seq<ChangeRecord>, n: nat)
    requires LogOk(log) && 0 < n <= |log| && log[n - 1].change.Revert?
    ensures var j := IndexOf(log[..n - 1], log[n - 1].change.changeId);
            j.Some? && j.value < n - 1 && StateAt(log, n).view == StateAt(log, j.value).view
            && InForce(log, n) == InForce(log, j.value)
  {
    hide EndsInRevision;
    RecordMeans(log, n - 1);
    var j := IndexOf(log[..n - 1], log[n - 1].change.changeId);
    assert j.value < |log[..n - 1]|;
  }

  lemma {:induction false} ValueIsLastSaid(log: seq<ChangeRecord>, n: nat, key: Key)
    requires LogOk(log) && n <= |log|
    ensures Within(log, InForce(log, n))
    ensures Value(StateAt(log, n).view, key) == LastSaid(log, InForce(log, n), key)
    decreases n
  {
    hide LogOk, Says, StateAt, IndexOf, LastSaid, Value;
    InForceInOrder(log, n);
    if n == 0 {
      NothingSaid(log, key);
    } else if log[n - 1].change.Revert? {
      RevertStep(log, n);
      ValueIsLastSaid(log, IndexOf(log[..n - 1], log[n - 1].change.changeId).value, key);
    } else {
      ValueIsLastSaid(log, n - 1, key);
      ValueStep(log, n, key);
      LastSaidStep(log, InForce(log, n - 1), n - 1, key);
    }
  }

  lemma NothingSaid(log: seq<ChangeRecord>, key: Key)
    ensures Value(StateAt(log, 0).view, key).None? && LastSaid(log, [], key).None?
  {
  }

  lemma RecordMeans(log: seq<ChangeRecord>, k: nat)
    requires LogOk(log) && k < |log|
    ensures Meaning(log, k, log[k].change) == Some(log[k].resulting.view)
  {
    assert RecordOk(log, k);
  }

  lemma {:induction false} LastSaidMeans(log: seq<ChangeRecord>, line: seq<nat>, key: Key)
    requires Within(log, line)
    ensures forall i :: 0 <= i < |line| && NamesLast(log, line, i, key) ==>
              LastSaid(log, line, key) == Says(log[line[i]].change, key).value
    ensures (forall i :: 0 <= i < |line| ==> Says(log[line[i]].change, key).None?) ==> LastSaid(log, line, key).None?
  {
    hide Says;
    if line != [] {
      var init, last := line[..|line| - 1], |line| - 1;
      LastSaidMeans(log, init, key);
      assert forall i :: 0 <= i < |init| ==> init[i] == line[i];
      forall i | 0 <= i < |line| && NamesLast(log, line, i, key)
        ensures LastSaid(log, line, key) == Says(log[line[i]].change, key).value
      {
        if i < last {
          assert Says(log[line[last]].change, key).None?;
          assert NamesLast(log, init, i, key);
        }
      }
    }
  }

  /** Under every schedule the live value of a route, policy, provider or of the password policy is what the last committed
      change in force that names it says, and there is none if no such change does. */
  lemma LiveValueExactly(states: seq<Global>, actions: seq<Action>, n: nat, key: Key)
    requires IsRun(states, actions) && n < |states|
    ensures var (log, live) := (states[n].log, Value(states[n].sys.authority.view, key));
            var line := InForce(log, |log|);
            && Within(log, line) && InOrder(log, line, |log|)
            && (forall i :: 0 <= i < |line| && NamesLast(log, line, i, key) ==> live == Says(log[line[i]].change, key).value)
            && ((forall i :: 0 <= i < |line| ==> Says(log[line[i]].change, key).None?) ==> live.None?)
  {
    hide Next, Inv, Says, Value, InForce, LogOk;
    EveryScheduleKeepsInv(states, actions, n);
    InvLog(states[n]);
    var log := states[n].log;
    InForceInOrder(log, |log|);
    ValueIsLastSaid(log, |log|, key);
    LastSaidMeans(log, InForce(log, |log|), key);
  }
}
