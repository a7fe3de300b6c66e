/** What a reconciliation report holds, list by list: which routes, in which order, paired with which, and under what
    reason. */
module ReportContents {
  import opened Prelude
  import opened Sorting
  import opened Routes
  import opened Text
  import opened Reconciler

  // ----- Places -------------------------------------------------------------------------------------

  /** The same method, and paths that agree segment by segment up to letter case and the spelling of parameters. */
  ghost predicate SamePlace(a: Route, b: Route) {
    && a.httpMethod == b.httpMethod
    && var (p, q) := (Segments(Trimmed(a.path)), Segments(Trimmed(b.path)));
       |p| == |q| && forall i :: 0 <= i < |p| ==> SamePart(p[i], q[i])
  }

  lemma SamePlaceExactly(a: Route, b: Route)
    ensures KeyOf(a) == KeyOf(b) <==> SamePlace(a, b)
  {
    hide NormalizePath, Segments, Trimmed, SamePart;
    SameFormExactly(a.path, b.path);
  }

  /** Of all routes given for a place, the one at `i` counts: its path is spelled last in the alphabet, and of those spelled
      alike it is the last in the list. */
  ghost predicate Counts(routes: seq<Route>, i: int) {
    && 0 <= i < |routes|
    && forall j :: 0 <= j < |routes| && SamePlace(routes[j], routes[i]) ==>
         if routes[j].path == routes[i].path then j <= i else TextLe(routes[j].path, routes[i].path)
  }

  ghost predicate IsRouteOf(routes: seq<Route>, x: Route) {
    exists i :: Counts(routes, i) && routes[i] == x
  }

  ghost predicate HasPlace(routes: seq<Route>, x: Route) {
    exists r <- routes :: SamePlace(r, x)
  }

  // ----- Which route a table files ------------------------------------------------------------------

  function LastWith(s: seq<Route>, key: Key): Option<Route> {
    if s == [] then None
    else if KeyOf(s[|s| - 1]) == key then Some(s[|s| - 1])
    else LastWith(s[..|s| - 1], key)
  }

  lemma NoneLast(key: Key)
    ensures LastWith([], key) == None
  {
  }

  lemma {:induction false} CollectedIsLast(s: seq<Route>, key: Key)
    ensures key in Collect(s).routes <==> LastWith(s, key).Some?
    ensures key in Collect(s).routes ==> LastWith(s, key) == Some(Collect(s).routes[key])
  {
    hide KeyOf, Insert;
    if s != [] {
      CollectedIsLast(s[..|s| - 1], key);
    }
  }

  lemma {:induction false} LastWithFirst(x: Route, s: seq<Route>, key: Key)
    ensures LastWith([x] + s, key) ==
            if LastWith(s, key).Some? then LastWith(s, key) else if KeyOf(x) == key then Some(x) else None
  {
    hide KeyOf;
    if s == [] {
      assert [x] + s == [x];
      assert LastWith([x][..0], key) == None;
    } else {
      assert ([x] + s)[..|s|] == [x] + s[..|s| - 1];
      LastWithFirst(x, s[..|s| - 1], key);
    }
  }

  lemma {:induction false} LastWithIn(s: seq<Route>, key: Key)
    ensures LastWith(s, key).Some? ==> LastWith(s, key).value in s && KeyOf(LastWith(s, key).value) == key
  {
    hide KeyOf;
    if s != [] {
      LastWithIn(s[..|s| - 1], key);
    }
  }

  /** Inserting leaves the last route of a key the last unless the new one belongs behind it. */
  lemma {:induction false} InsertedLast(x: Route, s: seq<Route>, key: Key)
    requires Sorted(s, byPlace)
    ensures var (before, after) := (LastWith(s, key), LastWith(Insert(x, s, byPlace), key));
            after == if KeyOf(x) != key || (before.Some? && byPlace(x, before.value)) then before else Some(x)
  {
    hide KeyOf, LastWith;
    PlacesAreOrdered();
    if s == [] {
      LastWithFirst(x, [], key);
      NoneLast(key);
      assert [x] + [] == [x];
    } else {
      assert s == [s[0]] + s[1..];
      LastWithFirst(s[0], s[1..], key);
      LastWithIn(s, key);
      LastWithIn(s[1..], key);
      if byPlace(x, s[0]) {
        LastWithFirst(x, s, key);
        var before := LastWith(s, key);
        if before.Some? && before.value != s[0] {
          assert before.value in s[1..];
          assert before.value in multiset(s[1..]);
          assert byPlace(s[0], before.value);
        }
      } else {
        InsertedLast(x, s[1..], key);
        LastWithFirst(s[0], Insert(x, s[1..], byPlace), key);
      }
    }
  }

  /** No route of the key is placed behind the one at `i`, and none placed alike is listed after it. */
  ghost predicate Wins(s: seq<Route>, key: Key, i: int) {
    && 0 <= i < |s| && KeyOf(s[i]) == key
    && forall j :: 0 <= j < |s| && KeyOf(s[j]) == key ==> byPlace(s[j], s[i]) && (byPlace(s[i], s[j]) ==> j <= i)
  }

  lemma WinsOver(x: Route, rest: seq<Route>, key: Key, k: int)
    requires Wins(rest, key, k)
    ensures var s := [x] + rest;
            if KeyOf(x) != key || byPlace(x, rest[k]) then Wins(s, key, k + 1) && s[k + 1] == rest[k] else Wins(s, key, 0)
  {
    hide KeyOf;
    var s := [x] + rest;
    PlacesAreOrdered();
    forall j | 0 < j < |s| && KeyOf(s[j]) == key ensures byPlace(s[j], rest[k]) && (byPlace(rest[k], s[j]) ==> j <= k + 1) {
      assert s[j] == rest[j - 1];
    }
  }

  lemma {:induction false} SortedLast(s: seq<Route>, key: Key) returns (i: int)
    ensures LastWith(Sort(s, byPlace), key).None? ==> forall j :: 0 <= j < |s| ==> KeyOf(s[j]) != key
    ensures LastWith(Sort(s, byPlace), key).Some? ==> Wins(s, key, i) && LastWith(Sort(s, byPlace), key) == Some(s[i])
  {
    hide KeyOf, LastWith, Wins, Insert;
    i := 0;
    if s == [] {
      NoneLast(key);
    } else {
      var x, rest := s[0], s[1..];
      assert s == [x] + rest;
      PlacesAreOrdered();
      SortSorts(rest, byPlace);
      InsertedLast(x, Sort(rest, byPlace), key);
      var k := SortedLast(rest, key);
      var before := LastWith(Sort(rest, byPlace), key);
      if before.Some? {
        WinsOver(x, rest, key, k);
        i := if KeyOf(x) != key || byPlace(x, before.value) then k + 1 else 0;
      } else if KeyOf(x) == key {
        OnlyWins(x, rest, key);
      }
    }
  }

  lemma OnlyWins(x: Route, rest: seq<Route>, key: Key)
    requires KeyOf(x) == key && forall j :: 0 <= j < |rest| ==> KeyOf(rest[j]) != key
    ensures Wins([x] + rest, key, 0)
  {
    hide KeyOf;
    PlacesAreOrdered();
    forall j | 0 < j < |[x] + rest| ensures KeyOf(([x] + rest)[j]) != key {
      assert ([x] + rest)[j] == rest[j - 1];
    }
  }

  lemma LaterExactly(a: Route, b: Route, atMost: bool)
    requires a.httpMethod == b.httpMethod
    ensures byPlace(a, b) && (byPlace(b, a) ==> atMost) <==> if a.path == b.path then atMost else TextLe(a.path, b.path)
  {
    TextTotal(a.path, b.path);
    TextTotal(a.httpMethod, b.httpMethod);
  }

  lemma WinsExactly(s: seq<Route>, key: Key, i: int)
    requires 0 <= i < |s| && KeyOf(s[i]) == key
    ensures Wins(s, key, i) <==> Counts(s, i)
  {
    hide NormalizePath, SamePlace;
    forall j | 0 <= j < |s| ensures KeyOf(s[j]) == key <==> SamePlace(s[j], s[i]) {
      SamePlaceExactly(s[j], s[i]);
    }
    forall j | 0 <= j < |s| && KeyOf(s[j]) == key
      ensures byPlace(s[j], s[i]) && (byPlace(s[i], s[j]) ==> j <= i) <==>
              if s[j].path == s[i].path then j <= i else TextLe(s[j].path, s[i].path)
    {
      LaterExactly(s[j], s[i], j <= i);
    }
  }

  lemma CountsWithin(routes: seq<Route>, k: int)
    requires Counts(routes, k)
    ensures 0 <= k < |routes|
  {
  }

  lemma KeyIs(route: Route)
    ensures KeyOf(route) == (route.httpMethod, NormalizePath(route.path))
  {
  }

  lemma FiledExactly(routes: seq<Route>, x: Route)
    ensures var t := TableOf(routes).routes;
            && (IsRouteOf(routes, x) <==> KeyOf(x) in t && t[KeyOf(x)] == x)
            && (HasPlace(routes, x) <==> KeyOf(x) in t)
  {
    hide KeyOf, LastWith, Collect, Counts, SamePlace;
    var key, sorted := KeyOf(x), Sort(routes, byPlace);
    CollectedIsLast(sorted, key);
    var i := SortedLast(routes, key);
    forall r: Route ensures KeyOf(r) == key <==> SamePlace(r, x) {
      SamePlaceExactly(r, x);
    }
    if LastWith(sorted, key).Some? {
      WinsExactly(routes, key, i);
      assert routes[i] in routes;
    }
    forall k | Counts(routes, k) ensures 0 <= k < |routes| {
      CountsWithin(routes, k);
    }
    if k :| Counts(routes, k) && routes[k] == x {
      WinsExactly(routes, key, k);
      assert k == i;
    }
  }

  // ----- Order --------------------------------------------------------------------------------------

  ghost predicate KeyBefore(a: Route, b: Route) {
    byKey(KeyOf(a), KeyOf(b)) && KeyOf(a) != KeyOf(b)
  }

  ghost predicate Ascending(s: seq<Route>) {
    forall i, j :: 0 <= i < j < |s| ==> KeyBefore(s[i], s[j])
  }

  lemma NothingAscends()
    ensures Ascending([])
  {
  }

  lemma {:induction false} SortedAscends(s: seq<Key>)
    requires Sorted(s, byKey)
    ensures forall i, j :: 0 <= i < j < |s| ==> byKey(s[i], s[j])
  {
    if s != [] {
      SortedAscends(s[1..]);
      forall j | 0 < j < |s| ensures byKey(s[0], s[j]) {
        assert s[1..][j - 1] in s[1..] && s[j] in multiset(s[1..]);
      }
    }
  }

  lemma KeysAscend(t: Table)
    requires TableOk(t)
    ensures forall i, j :: 0 <= i < j < |t.keys| ==> byKey(t.keys[i], t.keys[j]) && t.keys[i] != t.keys[j]
    ensures forall key :: key in t.keys <==> key in t.routes
  {
    hide KeyOf;
    SortedAscends(t.keys);
    SingleMultiplicity(t.keys);
    forall key ensures key in t.keys <==> key in t.routes {
      assert key in multiset(t.keys) <==> key in t.routes.Keys;
    }
  }

  ghost predicate SelectedAt(t: Table, other: Table, shared: bool, k: int, x: Route) {
    0 <= k < |t.keys| && t.keys[k] in t.routes && t.routes[t.keys[k]] == x && (t.keys[k] in other.routes) == shared
  }

  /** The selected routes, in the order of their keys. */
  lemma {:induction false} SelectMeans(t: Table, other: Table, shared: bool, n: nat)
    requires TableOk(t) && n <= |t.keys|
    ensures Ascending(Select(t, other, shared, n))
    ensures forall x :: x in Select(t, other, shared, n) <==> exists k :: k < n && SelectedAt(t, other, shared, k, x)
  {
    hide KeyOf, TableOk, Ascending;
    if n == 0 {
      NothingAscends();
    } else {
      SelectMeans(t, other, shared, n - 1);
      TableKey(t, n - 1);
      var init, last := Select(t, other, shared, n - 1), t.routes[t.keys[n - 1]];
      assert SelectedAt(t, other, shared, n - 1, last) <==> (t.keys[n - 1] in other.routes) == shared;
      forall x | x in init ensures KeyBefore(x, last) {
        var k :| k < n - 1 && SelectedAt(t, other, shared, k, x);
        TableKey(t, k);
        KeysAscend(t);
      }
      OneMoreAscends(init, last);
    }
  }

  lemma OneMoreAscends(s: seq<Route>, x: Route)
    requires Ascending(s) && forall y <- s :: KeyBefore(y, x)
    ensures Ascending(s + [x]) && s + [] == s
  {
  }

  lemma SelectedExactly(t: Table, other: Table, shared: bool, x: Route)
    requires TableOk(t)
    ensures x in Select(t, other, shared, |t.keys|) <==>
            KeyOf(x) in t.routes && t.routes[KeyOf(x)] == x && (KeyOf(x) in other.routes) == shared
  {
    hide KeyOf, Sorted;
    SelectMeans(t, other, shared, |t.keys|);
    KeysAscend(t);
    if KeyOf(x) in t.routes && t.routes[KeyOf(x)] == x && (KeyOf(x) in other.routes) == shared {
      var k :| 0 <= k < |t.keys| && t.keys[k] == KeyOf(x);
      assert SelectedAt(t, other, shared, k, x);
    }
  }

  // ----- The lists ----------------------------------------------------------------------------------

  /** The routes now that were there before, in the order of their keys. */
  lemma SameExactly(previous: seq<Route>, current: seq<Route>, respelled: seq<Key>)
    ensures var r := ReportOf(previous, current, respelled);
            && Ascending(r.same)
            && forall x :: x in r.same <==> IsRouteOf(current, x) && HasPlace(previous, x)
  {
    hide KeyOf, TableOf, TableOk, Select, Pairing, Kept, Changes, Respelled, Ascending, IsRouteOf, HasPlace;
    var p, c := TableOf(previous), TableOf(current);
    TableOfIsOk(current);
    SelectMeans(c, p, true, |c.keys|);
    forall x ensures x in Select(c, p, true, |c.keys|) <==> IsRouteOf(current, x) && HasPlace(previous, x) {
      SelectedExactly(c, p, true, x);
      FiledExactly(current, x);
      FiledExactly(previous, x);
    }
  }

  const NORMALIZED := "route parameter syntax normalized to the same authority route"

  /** Of these, the ones named as respelled are listed with what they were before. */
  lemma EquivalentExactly(previous: seq<Route>, current: seq<Route>, respelled: seq<Key>)
    ensures var r := ReportOf(previous, current, respelled);
            && Ascending(Currents(r.equivalent))
            && forall e :: e in r.equivalent <==>
                 && IsRouteOf(previous, e.previous) && IsRouteOf(current, e.current) && SamePlace(e.previous, e.current)
                 && (e.current.httpMethod, NormalizePath(e.current.path)) in respelled && e.reason == NORMALIZED
  {
    hide KeyOf, TableOf, TableOk, Select, Pairing, Kept, Changes, Respelled, Ascending, IsRouteOf, SamePlace, SelectedAt;
    var p, c := TableOf(previous), TableOf(current);
    TableOfIsOk(previous);
    TableOfIsOk(current);
    RespelledMeans(c, p, respelled, |c.keys|);
    forall e ensures e in Respelled(c, p, respelled, |c.keys|) <==>
                       && IsRouteOf(previous, e.previous) && IsRouteOf(current, e.current) && SamePlace(e.previous, e.current)
                       && KeyOf(e.current) in respelled && e.reason == NORMALIZED
    {
      FiledExactly(previous, e.previous);
      FiledExactly(current, e.current);
      SamePlaceExactly(e.previous, e.current);
      RespelledAtExactly(c, p, respelled, e);
    }
    forall e: ChangedRoute ensures KeyOf(e.current) == (e.current.httpMethod, NormalizePath(e.current.path)) {
      KeyIs(e.current);
    }
  }

  ghost predicate RespelledAt(t: Table, other: Table, respelled: seq<Key>, k: int, e: ChangedRoute) {
    && 0 <= k < |t.keys| && t.keys[k] in t.routes && t.keys[k] in other.routes && t.keys[k] in respelled
    && e == ChangedRoute(other.routes[t.keys[k]], t.routes[t.keys[k]], NORMALIZED)
  }

  lemma RespelledAtExactly(t: Table, other: Table, respelled: seq<Key>, e: ChangedRoute)
    requires TableOk(t) && TableOk(other)
    ensures (exists k :: RespelledAt(t, other, respelled, k, e)) <==>
            && KeyOf(e.current) in t.routes && t.routes[KeyOf(e.current)] == e.current
            && KeyOf(e.previous) in other.routes && other.routes[KeyOf(e.previous)] == e.previous
            && KeyOf(e.previous) == KeyOf(e.current) && KeyOf(e.current) in respelled && e.reason == NORMALIZED
  {
    hide KeyOf, Sorted;
    KeysAscend(t);
    if KeyOf(e.current) in t.keys {
      var k :| 0 <= k < |t.keys| && t.keys[k] == KeyOf(e.current);
      assert RespelledAt(t, other, respelled, k, e) <==>
             k < |t.keys| && t.keys[k] in other.routes && t.keys[k] in respelled
             && e == ChangedRoute(other.routes[t.keys[k]], t.routes[t.keys[k]], NORMALIZED);
    }
  }

  lemma {:induction false} RespelledMeans(t: Table, other: Table, respelled: seq<Key>, n: nat)
    requires TableOk(t) && n <= |t.keys|
    ensures Ascending(Currents(Respelled(t, other, respelled, n)))
    ensures forall e :: e in Respelled(t, other, respelled, n) <==> exists k :: k < n && RespelledAt(t, other, respelled, k, e)
  {
    hide KeyOf, TableOk, Ascending;
    var all := Respelled(t, other, respelled, n);
    if n == 0 {
      assert Currents(all) == [];
      NothingAscends();
    } else {
      RespelledMeans(t, other, respelled, n - 1);
      TableKey(t, n - 1);
      var init, key := Respelled(t, other, respelled, n - 1), t.keys[n - 1];
      if key in other.routes && key in respelled {
        var last := ChangedRoute(other.routes[key], t.routes[key], NORMALIZED);
        assert all == init + [last] && RespelledAt(t, other, respelled, n - 1, last);
        forall x | x in Currents(init) ensures KeyBefore(x, last.current) {
          var i :| 0 <= i < |init| && Currents(init)[i] == x;
          assert init[i] in init;
          var k :| k < n - 1 && RespelledAt(t, other, respelled, k, init[i]);
          TableKey(t, k);
          KeysAscend(t);
        }
        assert Currents(all) == Currents(init) + [last.current];
        OneMoreAscends(Currents(init), last.current);
      } else {
        assert all == init + [] == init;
      }
    }
  }

  // ----- Pairing ------------------------------------------------------------------------------------

  /** Pairs are made for one removed route after another, each with the first free new route of its family. */
  ghost predicate InTurn(removed: seq<Route>, added: seq<Route>, pairs: seq<(nat, nat)>) {
    && InRange(pairs, removed, added)
    && (forall l, m :: 0 <= l < m < |pairs| ==> pairs[l].0 < pairs[m].0)
    && forall m, j :: 0 <= m < |pairs| && 0 <= j < pairs[m].1 && Family(added[j].path) == Family(removed[pairs[m].0].path) ==>
         exists l :: 0 <= l < m && pairs[l].1 == j
  }

  lemma {:induction false} FirstFreeIsFirst(families: seq<string>, taken: seq<nat>, family: string, j: nat)
    requires j <= |families|
    ensures var found := FirstFree(families, taken, family, j);
            found.Some? ==> forall k :: j <= k < found.value && families[k] == family ==> k in taken
    decreases |families| - j
  {
    if j < |families| && !(j !in taken && family == families[j]) {
      FirstFreeIsFirst(families, taken, family, j + 1);
    }
  }

  lemma {:induction false} PairingInTurn(removed: seq<Route>, added: seq<Route>, n: nat)
    requires n <= |removed|
    ensures InTurn(removed, added, Pairing(removed, added, n))
    ensures forall p <- Pairing(removed, added, n) :: p.0 < n
  {
    hide Family, FirstFree, Seconds;
    if n > 0 {
      PairingInTurn(removed, added, n - 1);
      var pairs, families := Pairing(removed, added, n - 1), Map(FamilyOf, added);
      FirstFreeIsFirst(families, Seconds(pairs), FamilyOf(removed[n - 1]), 0);
      var found := FirstFree(families, Seconds(pairs), FamilyOf(removed[n - 1]), 0);
      if found.Some? {
        OneMoreInTurn(removed, added, pairs, n - 1, found.value);
      }
    }
  }

  lemma OneMoreInTurn(removed: seq<Route>, added: seq<Route>, pairs: seq<(nat, nat)>, i: nat, j: nat)
    requires InTurn(removed, added, pairs) && i < |removed| && j < |added| && forall p <- pairs :: p.0 < i
    requires forall k :: 0 <= k < j && Family(added[k].path) == Family(removed[i].path) ==> k in Seconds(pairs)
    ensures InTurn(removed, added, pairs + [(i, j)])
  {
    hide Family;
    var more := pairs + [(i, j)];
    forall m, k | 0 <= m < |more| && 0 <= k < more[m].1 && Family(added[k].path) == Family(removed[more[m].0].path)
      ensures exists l :: 0 <= l < m && more[l].1 == k
    {
      if m < |pairs| {
        var l :| 0 <= l < m && pairs[l].1 == k;
        assert more[l].1 == k;
      } else {
        var l :| 0 <= l < |Seconds(pairs)| && Seconds(pairs)[l] == k;
        assert more[l].1 == k;
      }
    }
  }

  ghost predicate IsGone(previous: seq<Route>, current: seq<Route>, x: Route) {
    IsRouteOf(previous, x) && !HasPlace(current, x)
  }

  lemma SideExactly(these: seq<Route>, others: seq<Route>)
    ensures var (t, u) := (TableOf(these), TableOf(others));
            && Ascending(Select(t, u, false, |t.keys|))
            && forall x :: x in Select(t, u, false, |t.keys|) <==> IsGone(these, others, x)
  {
    hide KeyOf, TableOf, TableOk, Select, Ascending, IsRouteOf, HasPlace;
    var t, u := TableOf(these), TableOf(others);
    TableOfIsOk(these);
    SelectMeans(t, u, false, |t.keys|);
    forall x ensures x in Select(t, u, false, |t.keys|) <==> IsGone(these, others, x) {
      SelectedExactly(t, u, false, x);
      FiledExactly(these, x);
      FiledExactly(others, x);
    }
  }

  lemma {:induction false} KeptExactly(s: seq<Route>, gone: seq<nat>, n: nat)
    requires Ascending(s) && n <= |s|
    ensures Ascending(Kept(s, gone, n))
    ensures forall x :: x in Kept(s, gone, n) <==> exists i :: 0 <= i < n && s[i] == x && i !in gone
  {
    hide KeyBefore;
    if n > 0 {
      KeptExactly(s, gone, n - 1);
      var init, last := Kept(s, gone, n - 1), s[n - 1];
      forall x | x in init ensures KeyBefore(x, last) {
        var i :| 0 <= i < n - 1 && s[i] == x && i !in gone;
      }
      OneMoreAscends(init, last);
    }
  }

  lemma AscendingIsDistinct(s: seq<Route>, i: nat, j: nat)
    requires Ascending(s) && i < |s| && j < |s|
    ensures s[i] == s[j] ==> i == j
    ensures KeyBefore(s[i], s[j]) ==> i < j
  {
    hide KeyOf;
    TextTotalEverywhere();
    if j < i {
      assert KeyBefore(s[j], s[i]);
    } else if i < j {
      assert KeyBefore(s[i], s[j]);
    }
  }

  lemma KeptNotPicked(s: seq<Route>, at: seq<nat>)
    requires Ascending(s) && forall k :: 0 <= k < |at| ==> at[k] < |s|
    ensures Ascending(Kept(s, at, |s|))
    ensures forall x :: x in Kept(s, at, |s|) <==> x in s && x !in Picked(s, at)
  {
    hide Ascending;
    KeptExactly(s, at, |s|);
    forall x ensures x in Kept(s, at, |s|) <==> x in s && x !in Picked(s, at) {
      if x in s {
        var i :| 0 <= i < |s| && s[i] == x;
        forall j: nat | j < |s| && s[j] == x ensures j == i {
          AscendingIsDistinct(s, i, j);
        }
        if i in at {
          var k :| 0 <= k < |at| && at[k] == i;
          assert Picked(s, at)[k] == x;
        }
        if x in Picked(s, at) {
          var k :| 0 <= k < |at| && s[at[k]] == x;
        }
      }
    }
  }

  lemma PickedInTurn(removed: seq<Route>, added: seq<Route>, pairs: seq<(nat, nat)>, m: nat, x: Route)
    requires Ascending(added) && InTurn(removed, added, pairs) && m < |pairs| && pairs[m] in pairs && x in added
    requires Family(added[pairs[m].1].path) == Family(removed[pairs[m].0].path) == Family(x.path)
    requires KeyBefore(x, added[pairs[m].1])
    ensures exists l :: 0 <= l < m && pairs[l].1 < |added| && added[pairs[l].1] == x
  {
    hide Ascending, Family, KeyBefore;
    var j :| 0 <= j < |added| && added[j] == x;
    AscendingIsDistinct(added, j, pairs[m].1);
    var l :| 0 <= l < m && pairs[l].1 == j;
  }

  lemma ContentsOfPairs(removed: seq<Route>, added: seq<Route>, pairs: seq<(nat, nat)>)
    requires Ascending(removed) && Ascending(added) && InTurn(removed, added, pairs) && Fits(pairs, removed, added, |removed|)
    ensures var changed := Changes(removed, added, pairs);
            && Ascending(Previouses(changed))
            && (forall c <- changed ::
                  && c.previous in removed && c.current in added && Family(c.previous.path) == Family(c.current.path)
                  && c.reason == if c.previous.httpMethod != c.current.httpMethod then "HTTP method changed" else "route shape changed")
            && (forall m, x ::
                  (0 <= m < |changed| && x in added && Family(x.path) == Family(changed[m].current.path) && KeyBefore(x, changed[m].current))
                  ==> exists l :: 0 <= l < m && changed[l].current == x)
  {
    hide Family, KeyBefore, Firsts, Seconds;
    var changed := Changes(removed, added, pairs);
    assert forall k :: 0 <= k < |pairs| ==> pairs[k] in pairs;
    forall m | 0 <= m < |pairs|
      ensures changed[m].previous == removed[pairs[m].0] && changed[m].current == added[pairs[m].1]
      ensures FamilyOf(changed[m].previous) == FamilyOf(changed[m].current)
    {
    }
    forall m: nat, x | m < |changed| && x in added && Family(x.path) == Family(changed[m].current.path) && KeyBefore(x, changed[m].current)
      ensures exists l :: 0 <= l < m && changed[l].current == x
    {
      PickedInTurn(removed, added, pairs, m, x);
      var l :| 0 <= l < m && pairs[l].1 < |added| && added[pairs[l].1] == x;
      assert changed[l].current == x;
    }
  }

  /** What the report says is gone, new, or changed. Changes are listed by the key of what went; each is from a route that is
      gone to one that is new and of the same family, and to the first such that no earlier change has taken; what is in no
      change is listed as removed or as added. */
  lemma ChangesExactly(previous: seq<Route>, current: seq<Route>, respelled: seq<Key>)
    ensures var r := ReportOf(previous, current, respelled);
            && Ascending(r.removed) && Ascending(r.added) && Ascending(Previouses(r.changed))
            && (forall c <- r.changed ::
                  && IsGone(previous, current, c.previous) && IsGone(current, previous, c.current)
                  && Family(c.previous.path) == Family(c.current.path)
                  && c.reason == if c.previous.httpMethod != c.current.httpMethod then "HTTP method changed" else "route shape changed")
            && (forall m, x ::
                  (&& 0 <= m < |r.changed| && IsGone(current, previous, x) && Family(x.path) == Family(r.changed[m].current.path)
                   && KeyBefore(x, r.changed[m].current))
                  ==> exists l :: 0 <= l < m && r.changed[l].current == x)
            && (forall x :: x in r.removed <==> IsGone(previous, current, x) && x !in Previouses(r.changed))
            && (forall x :: x in r.added <==> IsGone(current, previous, x) && x !in Currents(r.changed))
  {
    hide KeyOf, TableOf, TableOk, Select, Pairing, Kept, Respelled, Ascending, IsGone, Firsts, Seconds, Family, InTurn, Fits, KeyBefore;
    var p, c := TableOf(previous), TableOf(current);
    SideExactly(previous, current);
    SideExactly(current, previous);
    var removed, added := Select(p, c, false, |p.keys|), Select(c, p, false, |c.keys|);
    var pairs := Pairing(removed, added, |removed|);
    PairingFits(removed, added, |removed|);
    PairingInTurn(removed, added, |removed|);
    ContentsOfPairs(removed, added, pairs);
    ChangesArePicked(removed, added, pairs);
    KeptNotPicked(removed, Firsts(pairs));
    KeptNotPicked(added, Seconds(pairs));
  }
}
