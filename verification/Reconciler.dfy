/** Comparing the routes found now with the routes found before. */
module Reconciler {
  import opened Prelude
  import opened Sorting
  import opened Routes

  /** `about` stands for what a description carries besides its place. */
  datatype Route = Route(httpMethod: string, path: string, about: string)

  type Key = (string, string)

  datatype ChangedRoute = ChangedRoute(previous: Route, current: Route, reason: string)

  datatype Report = Report(same: seq<Route>, equivalent: seq<ChangedRoute>, changed: seq<ChangedRoute>,
                           added: seq<Route>, removed: seq<Route>)

  /** Routes by key, the keys listed in ascending order. */
  datatype Table = Table(keys: seq<Key>, routes: map<Key, Route>)

  function KeyOf(route: Route): Key {
    (route.httpMethod, NormalizePath(route.path))
  }

  function FamilyOf(route: Route): string {
    Family(route.path)
  }

  const byPlace := (a: Route, b: Route) =>
    if a.path == b.path then TextLe(a.httpMethod, b.httpMethod) else TextLe(a.path, b.path)

  const byKey := (a: Key, b: Key) => if a.0 == b.0 then TextLe(a.1, b.1) else TextLe(a.0, b.0)

  // ----- What is computed ---------------------------------------------------------------------------

  /** A later route under the same key takes the place of an earlier one. */
  function Put(t: Table, route: Route): Table {
    Table(if KeyOf(route) in t.routes then t.keys else Insert(KeyOf(route), t.keys, byKey), t.routes[KeyOf(route) := route])
  }

  function Collect(routes: seq<Route>): Table {
    if routes == [] then Table([], map[]) else Put(Collect(routes[..|routes| - 1]), routes[|routes| - 1])
  }

  function TableOf(routes: seq<Route>): Table {
    Collect(Sort(routes, byPlace))
  }

  /** The routes under the first `n` keys that are, or are not, keys of the other table too. */
  function Select(t: Table, other: Table, shared: bool, n: nat): seq<Route>
    requires n <= |t.keys|
  {
    if n == 0 then []
    else
      var key := t.keys[n - 1];
      Select(t, other, shared, n - 1) + (if (key in other.routes) == shared && key in t.routes then [t.routes[key]] else [])
  }

  function Respelled(t: Table, other: Table, respelled: seq<Key>, n: nat): seq<ChangedRoute>
    requires n <= |t.keys|
  {
    if n == 0 then []
    else
      var key := t.keys[n - 1];
      Respelled(t, other, respelled, n - 1) +
      (if key in other.routes && key in t.routes && key in respelled
       then [ChangedRoute(other.routes[key], t.routes[key], RESPELLED)] else [])
  }

  const RESPELLED := "route parameter syntax normalized to the same authority route"

  /** The first position of a family, from `j` on, that is not taken yet. */
  function FirstFree(families: seq<string>, taken: seq<nat>, family: string, j: nat): (r: Option<nat>)
    requires j <= |families|
    ensures r.Some? ==> j <= r.value < |families| && r.value !in taken && families[r.value] == family
    ensures r.None? ==> forall k :: j <= k < |families| && k !in taken ==> families[k] != family
    decreases |families| - j
  {
    if j == |families| then None
    else if j !in taken && family == families[j] then Some(j)
    else FirstFree(families, taken, family, j + 1)
  }

  function Map<T, U>(g: T -> U, s: seq<T>): (r: seq<U>)
    ensures |r| == |s| && forall i :: 0 <= i < |s| ==> r[i] == g(s[i])
  {
    seq(|s|, i requires 0 <= i < |s| => g(s[i]))
  }

  function Firsts(pairs: seq<(nat, nat)>): seq<nat> {
    seq(|pairs|, i requires 0 <= i < |pairs| => pairs[i].0)
  }

  function Seconds(pairs: seq<(nat, nat)>): seq<nat> {
    seq(|pairs|, i requires 0 <= i < |pairs| => pairs[i].1)
  }

  /** Positions of removed and new routes taken to be the same route, changed. */
  function Pairing(removed: seq<Route>, added: seq<Route>, n: nat): seq<(nat, nat)>
    requires n <= |removed|
  {
    if n == 0 then []
    else
      var pairs := Pairing(removed, added, n - 1);
      match FirstFree(Map(FamilyOf, added), Seconds(pairs), FamilyOf(removed[n - 1]), 0)
      case None => pairs
      case Some(j) => pairs + [(n - 1, j)]
  }

  function Reason(previous: Route, current: Route): string {
    if previous.httpMethod != current.httpMethod then "HTTP method changed" else "route shape changed"
  }

  predicate InRange(pairs: seq<(nat, nat)>, removed: seq<Route>, added: seq<Route>) {
    forall p <- pairs :: p.0 < |removed| && p.1 < |added|
  }

  function Changes(removed: seq<Route>, added: seq<Route>, pairs: seq<(nat, nat)>): seq<ChangedRoute>
    requires InRange(pairs, removed, added)
  {
    seq(|pairs|, i requires 0 <= i < |pairs| =>
      var (previous, current) := (removed[pairs[i].0], added[pairs[i].1]);
      ChangedRoute(previous, current, Reason(previous, current)))
  }

  /** The first `n` elements without those at the positions `gone`. */
  function Kept<T>(s: seq<T>, gone: seq<nat>, n: nat): seq<T>
    requires n <= |s|
  {
    if n == 0 then [] else Kept(s, gone, n - 1) + (if n - 1 in gone then [] else [s[n - 1]])
  }

  function ReportOf(previous: seq<Route>, current: seq<Route>, respelled: seq<Key>): Report {
    var p, c := TableOf(previous), TableOf(current);
    var removed, added := Select(p, c, false, |p.keys|), Select(c, p, false, |c.keys|);
    var pairs := Pairing(removed, added, |removed|);
    PairingFits(removed, added, |removed|);
    Report(Select(c, p, true, |c.keys|), Respelled(c, p, respelled, |c.keys|), Changes(removed, added, pairs),
           Kept(added, Seconds(pairs), |added|), Kept(removed, Firsts(pairs), |removed|))
  }

  // ----- Pairing ------------------------------------------------------------------------------------

  lemma PairAppends(pairs: seq<(nat, nat)>, i: nat, j: nat)
    ensures Firsts(pairs + [(i, j)]) == Firsts(pairs) + [i]
    ensures Seconds(pairs + [(i, j)]) == Seconds(pairs) + [j]
  {
  }

  ghost predicate Fits(pairs: seq<(nat, nat)>, removed: seq<Route>, added: seq<Route>, n: nat) {
    && InRange(pairs, removed, added)
    && (forall p <- pairs :: FamilyOf(removed[p.0]) == FamilyOf(added[p.1]))
    && (forall i <- Firsts(pairs) :: i < n)
    && Distinct(Firsts(pairs)) && Distinct(Seconds(pairs))
  }

  lemma {:induction false} PairingFits(removed: seq<Route>, added: seq<Route>, n: nat)
    requires n <= |removed|
    ensures Fits(Pairing(removed, added, n), removed, added, n)
    ensures InRange(Pairing(removed, added, n), removed, added)
  {
    hide FamilyOf, Firsts, Seconds, FirstFree;
    if n == 0 {
      assert Firsts([]) == [] && Seconds([]) == [] by { NoPairs(); }
    } else {
      var pairs := Pairing(removed, added, n - 1);
      PairingFits(removed, added, n - 1);
      var found := FirstFree(Map(FamilyOf, added), Seconds(pairs), FamilyOf(removed[n - 1]), 0);
      if found.Some? {
        PairAppends(pairs, n - 1, found.value);
        DistinctAppend(Firsts(pairs), n - 1);
        DistinctAppend(Seconds(pairs), found.value);
      }
    }
  }

  lemma NoPairs()
    ensures Firsts([]) == [] && Seconds([]) == []
  {
  }

  /** Whatever stays unpaired on one side has no partner left on the other. */
  lemma {:induction false} PairingIsMaximal(removed: seq<Route>, added: seq<Route>, n: nat)
    requires n <= |removed|
    ensures var pairs := Pairing(removed, added, n);
            forall i, j :: 0 <= i < n && 0 <= j < |added| && i !in Firsts(pairs) && j !in Seconds(pairs) ==>
              FamilyOf(removed[i]) != FamilyOf(added[j])
  {
    hide FamilyOf, Firsts, Seconds, FirstFree;
    if n > 0 {
      var pairs := Pairing(removed, added, n - 1);
      PairingIsMaximal(removed, added, n - 1);
      var found := FirstFree(Map(FamilyOf, added), Seconds(pairs), FamilyOf(removed[n - 1]), 0);
      if found.Some? {
        PairAppends(pairs, n - 1, found.value);
        assert Pairing(removed, added, n) == pairs + [(n - 1, found.value)];
        assert (Firsts(pairs) + [n - 1])[|Firsts(pairs)|] == n - 1;
        forall j | j in Seconds(pairs) ensures j in Seconds(pairs) + [found.value] {
        }
      }
    }
  }

  // ----- Counting -----------------------------------------------------------------------------------

  /** What `g` makes of the elements, with repetition. */
  ghost function Bag<T, U>(g: T -> U, s: seq<T>): multiset<U> {
    multiset(Map(g, s))
  }

  lemma BagAppend<T, U>(g: T -> U, s: seq<T>, x: T)
    ensures Bag(g, s + [x]) == Bag(g, s) + multiset{g(x)}
    ensures Bag(g, s + []) == Bag(g, s)
  {
    assert Map(g, s + [x]) == Map(g, s) + [g(x)];
    assert s + [] == s;
  }

  function Picked<T>(s: seq<T>, at: seq<nat>): seq<T>
    requires forall k :: 0 <= k < |at| ==> at[k] < |s|
  {
    seq(|at|, k requires 0 <= k < |at| => s[at[k]])
  }

  lemma {:induction false} KeptDrops<T, U>(g: T -> U, s: seq<T>, gone: seq<nat>, j: nat, n: nat)
    requires j < |s| && j !in gone && n <= |s|
    ensures Bag(g, Kept(s, gone, n)) ==
            Bag(g, Kept(s, gone + [j], n)) + if j < n then multiset{g(s[j])} else multiset{}
  {
    hide Bag;
    if n > 0 {
      KeptDrops(g, s, gone, j, n - 1);
      BagAppend(g, Kept(s, gone, n - 1), s[n - 1]);
      BagAppend(g, Kept(s, gone + [j], n - 1), s[n - 1]);
    }
  }

  lemma {:induction false} KeptAll<T>(s: seq<T>, n: nat)
    requires n <= |s|
    ensures Kept(s, [], n) == s[..n]
  {
    if n > 0 {
      KeptAll(s, n - 1);
    }
  }

  /** What is kept and what is taken away make up the whole. */
  lemma {:induction false} KeptAndPicked<T, U>(g: T -> U, s: seq<T>, gone: seq<nat>)
    requires Distinct(gone) && forall k :: 0 <= k < |gone| ==> gone[k] < |s|
    ensures Bag(g, Kept(s, gone, |s|)) + Bag(g, Picked(s, gone)) == Bag(g, s)
  {
    if gone == [] {
      KeptAll(s, |s|);
      assert s[..|s|] == s;
    } else {
      var init, last := gone[..|gone| - 1], gone[|gone| - 1];
      assert gone == init + [last] && forall k :: 0 <= k < |init| ==> init[k] == gone[k];
      KeptAndPicked(g, s, init);
      KeptDrops(g, s, init, last, |s|);
      assert Picked(s, gone) == Picked(s, init) + [s[last]];
      BagAppend(g, Picked(s, init), s[last]);
    }
  }

  lemma {:induction false} KeptIsFree<T>(s: seq<T>, gone: seq<nat>, n: nat, x: T)
    requires n <= |s| && x in Kept(s, gone, n)
    ensures exists i :: 0 <= i < n && i !in gone && s[i] == x
  {
    if x in Kept(s, gone, n - 1) {
      KeptIsFree(s, gone, n - 1, x);
    } else {
      assert n - 1 !in gone && s[n - 1] == x;
    }
  }

  // ----- Tables -------------------------------------------------------------------------------------

  lemma TextTotalEverywhere()
    ensures TotalPreorder(byKey)
    ensures forall x: Key, y: Key :: byKey(x, y) && byKey(y, x) ==> x == y
  {
    forall x: Key, y: Key ensures byKey(x, y) || byKey(y, x) ensures byKey(x, y) && byKey(y, x) ==> x == y {
      TextTotal(x.0, y.0);
      TextTotal(x.1, y.1);
    }
    forall x: Key, y: Key, z: Key | byKey(x, y) && byKey(y, z) ensures byKey(x, z) {
      TextTotal(x.0, y.0);
      TextTotal(y.0, z.0);
      TextTotal(x.0, z.0);
      if x.0 == y.0 == z.0 {
        TextTransitive(x.1, y.1, z.1);
      } else {
        TextTransitive(x.0, y.0, z.0);
        if x.0 == z.0 {
          TextTotal(x.0, y.0);
        }
      }
    }
  }

  /** The keys are in order, each once, and every route is filed under its own key. */
  ghost predicate TableOk(t: Table) {
    && Sorted(t.keys, byKey) && multiset(t.keys) == multiset(t.routes.Keys)
    && forall key <- t.routes :: KeyOf(t.routes[key]) == key
  }

  lemma InsertKey(key: Key, keys: seq<Key>)
    requires Sorted(keys, byKey)
    ensures Sorted(Insert(key, keys, byKey), byKey) && multiset(Insert(key, keys, byKey)) == multiset{key} + multiset(keys)
  {
    TextTotalEverywhere();
    InsertIsSorted(key, keys, byKey);
  }

  lemma OneMore<T>(s: set<T>, x: T)
    requires x !in s
    ensures multiset(s + {x}) == multiset{x} + multiset(s)
  {
  }

  lemma PutIsOk(t: Table, route: Route)
    requires TableOk(t)
    ensures TableOk(Put(t, route)) && Put(t, route).routes.Keys == t.routes.Keys + {KeyOf(route)}
  {
    hide KeyOf, Sorted, Insert;
    if KeyOf(route) in t.routes {
      assert Put(t, route).routes.Keys == t.routes.Keys;
    } else {
      InsertKey(KeyOf(route), t.keys);
      OneMore(t.routes.Keys, KeyOf(route));
      assert Put(t, route).routes.Keys == t.routes.Keys + {KeyOf(route)};
    }
  }

  lemma {:induction false} CollectIsOk(routes: seq<Route>)
    ensures TableOk(Collect(routes))
    ensures forall key :: key in Collect(routes).routes <==> exists r <- routes :: KeyOf(r) == key
  {
    hide KeyOf, Put, TableOk;
    if routes == [] {
      EmptyTable();
    } else {
      var init, last := routes[..|routes| - 1], routes[|routes| - 1];
      assert routes == init + [last];
      CollectIsOk(init);
      PutIsOk(Collect(init), last);
      forall key ensures key in Collect(routes).routes <==> exists r <- routes :: KeyOf(r) == key {
        if key in Collect(init).routes {
          var r :| r in init && KeyOf(r) == key;
          assert r in routes;
        }
        if exists r <- routes :: KeyOf(r) == key {
          var r :| r in routes && KeyOf(r) == key;
          assert r in init || r == last;
        }
      }
    }
  }

  lemma EmptyTable()
    ensures TableOk(Table([], map[]))
  {
  }

  ghost function KeysOf(routes: seq<Route>): set<Key> {
    set r <- routes :: KeyOf(r)
  }

  lemma TableOfIsOk(routes: seq<Route>)
    ensures TableOk(TableOf(routes)) && TableOf(routes).routes.Keys == KeysOf(routes)
  {
    hide KeyOf, TableOk;
    PlacesAreOrdered();
    SortSorts(routes, byPlace);
    CollectIsOk(Sort(routes, byPlace));
    forall r ensures r in routes <==> r in Sort(routes, byPlace) {
      assert r in multiset(routes) <==> r in multiset(Sort(routes, byPlace));
    }
  }

  lemma PlacesAreOrdered()
    ensures TotalPreorder(byPlace)
  {
    forall x: Route, y: Route ensures byPlace(x, y) || byPlace(y, x) {
      TextTotal(x.path, y.path);
      TextTotal(x.httpMethod, y.httpMethod);
    }
    forall x: Route, y: Route, z: Route | byPlace(x, y) && byPlace(y, z) ensures byPlace(x, z) {
      if x.path == y.path == z.path {
        TextTransitive(x.httpMethod, y.httpMethod, z.httpMethod);
      } else {
        TextTotal(x.path, y.path);
        TextTotal(y.path, z.path);
        TextTransitive(x.path, y.path, z.path);
        TextTotal(x.path, z.path);
      }
    }
  }

  lemma TableKey(t: Table, n: nat)
    requires TableOk(t) && n < |t.keys|
    ensures t.keys[n] in t.routes && KeyOf(t.routes[t.keys[n]]) == t.keys[n]
  {
    assert t.keys[n] in multiset(t.keys);
  }

  lemma {:induction false} SelectCounts(t: Table, other: Table, shared: bool, n: nat, key: Key)
    requires TableOk(t) && n <= |t.keys|
    ensures Bag(KeyOf, Select(t, other, shared, n))[key] ==
            if (key in other.routes) == shared then multiset(t.keys[..n])[key] else 0
  {
    hide KeyOf, TableOk, Bag;
    if n == 0 {
      NoBag(KeyOf);
    } else {
      SelectCounts(t, other, shared, n - 1, key);
      TableKey(t, n - 1);
      BagAppend(KeyOf, Select(t, other, shared, n - 1), t.routes[t.keys[n - 1]]);
      assert t.keys[..n] == t.keys[..n - 1] + [t.keys[n - 1]];
    }
  }

  lemma NoBag<T, U>(g: T -> U)
    ensures Bag(g, []) == multiset{}
  {
  }

  /** The selected routes have exactly the shared, or the unshared, keys, each once. */
  lemma SelectIsExact(t: Table, other: Table, shared: bool)
    requires TableOk(t)
    ensures Bag(KeyOf, Select(t, other, shared, |t.keys|)) ==
            multiset(if shared then t.routes.Keys * other.routes.Keys else t.routes.Keys - other.routes.Keys)
  {
    hide KeyOf, Bag, Sorted;
    var s := if shared then t.routes.Keys * other.routes.Keys else t.routes.Keys - other.routes.Keys;
    assert t.keys[..|t.keys|] == t.keys;
    forall key ensures Bag(KeyOf, Select(t, other, shared, |t.keys|))[key] == multiset(s)[key] {
      SelectCounts(t, other, shared, |t.keys|, key);
    }
  }

  // ----- What a report guarantees -------------------------------------------------------------------

  function Previouses(changed: seq<ChangedRoute>): seq<Route> {
    Map((c: ChangedRoute) => c.previous, changed)
  }

  function Currents(changed: seq<ChangedRoute>): seq<Route> {
    Map((c: ChangedRoute) => c.current, changed)
  }

  lemma ChangesArePicked(removed: seq<Route>, added: seq<Route>, pairs: seq<(nat, nat)>)
    requires InRange(pairs, removed, added)
    ensures (forall k :: 0 <= k < |Seconds(pairs)| ==> Seconds(pairs)[k] < |added|)
    ensures (forall k :: 0 <= k < |Firsts(pairs)| ==> Firsts(pairs)[k] < |removed|)
    ensures Currents(Changes(removed, added, pairs)) == Picked(added, Seconds(pairs))
    ensures Previouses(Changes(removed, added, pairs)) == Picked(removed, Firsts(pairs))
  {
    assert forall k :: 0 <= k < |pairs| ==> pairs[k] in pairs;
  }

  lemma PairingSplits<U>(g: Route -> U, removed: seq<Route>, added: seq<Route>)
    ensures var pairs := Pairing(removed, added, |removed|);
            && InRange(pairs, removed, added)
            && Bag(g, Kept(added, Seconds(pairs), |added|)) + Bag(g, Currents(Changes(removed, added, pairs))) == Bag(g, added)
            && Bag(g, Kept(removed, Firsts(pairs), |removed|)) + Bag(g, Previouses(Changes(removed, added, pairs))) == Bag(g, removed)
  {
    hide FamilyOf, Bag, Pairing, Changes, Currents, Previouses, Firsts, Seconds, Kept, Picked, InRange;
    var pairs := Pairing(removed, added, |removed|);
    PairingFits(removed, added, |removed|);
    ChangesArePicked(removed, added, pairs);
    KeptAndPicked(g, added, Seconds(pairs));
    KeptAndPicked(g, removed, Firsts(pairs));
  }

  /** The current keys are split exactly into unchanged, added and changed, the previous keys exactly into
      unchanged, removed and changed, and no key is used twice. */
  lemma EveryKeyOnce(previous: seq<Route>, current: seq<Route>, respelled: seq<Key>)
    ensures var r := ReportOf(previous, current, respelled);
            && Bag(KeyOf, r.same) == multiset(KeysOf(current) * KeysOf(previous))
            && Bag(KeyOf, r.added) + Bag(KeyOf, Currents(r.changed)) == multiset(KeysOf(current) - KeysOf(previous))
            && Bag(KeyOf, r.removed) + Bag(KeyOf, Previouses(r.changed)) == multiset(KeysOf(previous) - KeysOf(current))
  {
    hide KeyOf, Bag, Select, Kept, Changes, Pairing, Currents, Previouses, TableOk, TableOf;
    var p, c := TableOf(previous), TableOf(current);
    TableOfIsOk(previous);
    TableOfIsOk(current);
    SelectIsExact(c, p, true);
    SelectIsExact(c, p, false);
    SelectIsExact(p, c, false);
    PairingSplits(KeyOf, Select(p, c, false, |p.keys|), Select(c, p, false, |c.keys|));
  }

  /** A route is reported as changed only into one of the same family under another key, and no removed and
      added route that are both left over share a family. */
  lemma ChangesAreWithinFamilies(previous: seq<Route>, current: seq<Route>, respelled: seq<Key>)
    ensures var r := ReportOf(previous, current, respelled);
            && (forall c <- r.changed :: FamilyOf(c.previous) == FamilyOf(c.current) && c.reason == Reason(c.previous, c.current))
            && (forall a, b :: a in r.removed && b in r.added ==> FamilyOf(a) != FamilyOf(b))
  {
    hide FamilyOf, Select, Pairing, TableOf, Kept, Firsts, Seconds;
    var p, c := TableOf(previous), TableOf(current);
    var removed, added := Select(p, c, false, |p.keys|), Select(c, p, false, |c.keys|);
    var pairs := Pairing(removed, added, |removed|);
    PairingFits(removed, added, |removed|);
    PairingIsMaximal(removed, added, |removed|);
    assert forall k :: 0 <= k < |pairs| ==> pairs[k] in pairs;
    var r := ReportOf(previous, current, respelled);
    forall a, b | a in r.removed && b in r.added ensures FamilyOf(a) != FamilyOf(b) {
      KeptIsFree(removed, Firsts(pairs), |removed|, a);
      KeptIsFree(added, Seconds(pairs), |added|, b);
    }
  }

  function FamilyOfKey(key: Key): string {
    FirstPlain(Segments(key.1))
  }

  ghost function InFamily(keys: set<Key>, family: string): set<Key> {
    set key <- keys | FamilyOfKey(key) == family
  }

  lemma FamilyIsOfKey(route: Route)
    ensures FamilyOf(route) == FamilyOfKey(KeyOf(route))
  {
  }

  lemma OneLess(bag: multiset<Key>, keys: set<Key>, key: Key)
    requires bag + multiset{key} == multiset(keys)
    ensures key in keys && bag == multiset(keys - {key})
  {
    assert (bag + multiset{key})[key] > 0;
    assert bag == bag + multiset{key} - multiset{key};
  }

  lemma OneLessInFamily(keys: set<Key>, key: Key, family: string)
    requires key in keys
    ensures |InFamily(keys, family)| == |InFamily(keys - {key}, family)| + if FamilyOfKey(key) == family then 1 else 0
  {
    hide FamilyOfKey;
    assert InFamily(keys, family) ==
           InFamily(keys - {key}, family) + if FamilyOfKey(key) == family then {key} else {};
  }

  lemma {:induction false} CountByKey(routes: seq<Route>, keys: set<Key>, family: string)
    requires Bag(KeyOf, routes) == multiset(keys)
    ensures Bag(FamilyOf, routes)[family] == |InFamily(keys, family)|
  {
    hide KeyOf, FamilyOf, FamilyOfKey, InFamily, Bag;
    if routes == [] {
      NoBag(KeyOf);
      NoBag(FamilyOf);
      NoKeys(keys, family);
    } else {
      var init, last := routes[..|routes| - 1], routes[|routes| - 1];
      assert routes == init + [last];
      BagAppend(KeyOf, init, last);
      BagAppend(FamilyOf, init, last);
      var key := KeyOf(last);
      OneLess(Bag(KeyOf, init), keys, key);
      CountByKey(init, keys - {key}, family);
      OneLessInFamily(keys, key, family);
      FamilyIsOfKey(last);
    }
  }

  lemma NoKeys(keys: set<Key>, family: string)
    requires multiset(keys) == multiset{}
    ensures InFamily(keys, family) == {}
  {
    assert |keys| == |multiset(keys)| == 0;
  }

  lemma SameFamilies(changed: seq<ChangedRoute>)
    requires forall c <- changed :: FamilyOf(c.previous) == FamilyOf(c.current)
    ensures Bag(FamilyOf, Currents(changed)) == Bag(FamilyOf, Previouses(changed))
  {
    hide FamilyOf;
    assert Map(FamilyOf, Currents(changed)) == Map(FamilyOf, Previouses(changed));
  }

  lemma Absent(routes: seq<Route>, family: string)
    ensures Bag(FamilyOf, routes)[family] > 0 <==> exists r <- routes :: FamilyOf(r) == family
  {
    hide FamilyOf;
    if Bag(FamilyOf, routes)[family] > 0 {
      assert family in Map(FamilyOf, routes);
      var i :| 0 <= i < |routes| && Map(FamilyOf, routes)[i] == family;
      assert routes[i] in routes;
    }
    if r :| r in routes && FamilyOf(r) == family {
      var i :| 0 <= i < |routes| && routes[i] == r;
      assert Map(FamilyOf, routes)[i] == family;
    }
  }

  /** In every family as many routes are reported as changed as any pairing could match: all that were added
      or all that were removed, whichever are fewer. */
  lemma ChangedIsMaximum(previous: seq<Route>, current: seq<Route>, respelled: seq<Key>, family: string)
    ensures var gone := |InFamily(KeysOf(previous) - KeysOf(current), family)|;
            var arrived := |InFamily(KeysOf(current) - KeysOf(previous), family)|;
            Bag(FamilyOf, Currents(ReportOf(previous, current, respelled).changed))[family] ==
            if gone < arrived then gone else arrived
  {
    hide KeyOf, FamilyOf, Bag, Select, Kept, Changes, Pairing, Currents, Previouses, TableOk, TableOf, InFamily;
    var r := ReportOf(previous, current, respelled);
    var p, c := TableOf(previous), TableOf(current);
    var removed, added := Select(p, c, false, |p.keys|), Select(c, p, false, |c.keys|);
    TableOfIsOk(previous);
    TableOfIsOk(current);
    SelectIsExact(c, p, false);
    SelectIsExact(p, c, false);
    CountByKey(removed, KeysOf(previous) - KeysOf(current), family);
    CountByKey(added, KeysOf(current) - KeysOf(previous), family);
    PairingSplits(FamilyOf, removed, added);
    ChangesAreWithinFamilies(previous, current, respelled);
    SameFamilies(r.changed);
    Absent(r.removed, family);
    Absent(r.added, family);
  }

  // ----- The algorithm ------------------------------------------------------------------------------

  method Reconcile(previous: seq<Route>, current: seq<Route>, respelled: seq<Key>) returns (r: Report)
    ensures r == ReportOf(previous, current, respelled)
  {
    hide KeyOf, FamilyOf, TableOf, TableOk, Kept, Pairing, Changes, Firsts, Seconds;
    var p, c := TableOf(previous), TableOf(current);
    TableOfIsOk(previous);
    TableOfIsOk(current);
    var same, equivalent, added, removed := [], [], [], [];
    for i := 0 to |c.keys|
      invariant same == Select(c, p, true, i) && added == Select(c, p, false, i)
      invariant equivalent == Respelled(c, p, respelled, i)
    {
      var key := c.keys[i];
      TableKey(c, i);
      if key in p.routes {
        if key in respelled {
          equivalent := equivalent + [ChangedRoute(p.routes[key], c.routes[key], RESPELLED)];
        }
        same := same + [c.routes[key]];
      } else {
        added := added + [c.routes[key]];
      }
    }
    for i := 0 to |p.keys|
      invariant removed == Select(p, c, false, i)
    {
      var key := p.keys[i];
      TableKey(p, i);
      if key !in c.routes {
        removed := removed + [p.routes[key]];
      }
    }
    var changed, pairedNew, pairedRemoved := PairRoutes(removed, added);
    r := Report(same, equivalent, changed, Kept(added, pairedNew, |added|), Kept(removed, pairedRemoved, |removed|));
  }

  method PairRoutes(removed: seq<Route>, added: seq<Route>)
    returns (changed: seq<ChangedRoute>, pairedNew: seq<nat>, pairedRemoved: seq<nat>)
    ensures var pairs := Pairing(removed, added, |removed|);
            && InRange(pairs, removed, added) && changed == Changes(removed, added, pairs)
            && pairedNew == Seconds(pairs) && pairedRemoved == Firsts(pairs)
  {
    hide FamilyOf, FirstFree;
    changed, pairedNew, pairedRemoved := [], [], [];
    for i := 0 to |removed|
      invariant InRange(Pairing(removed, added, i), removed, added)
      invariant changed == Changes(removed, added, Pairing(removed, added, i))
      invariant pairedNew == Seconds(Pairing(removed, added, i)) && pairedRemoved == Firsts(Pairing(removed, added, i))
    {
      var found := FirstFree(Map(FamilyOf, added), pairedNew, FamilyOf(removed[i]), 0);
      if found.Some? {
        PairAppends(Pairing(removed, added, i), i, found.value);
        pairedRemoved := pairedRemoved + [i];
        pairedNew := pairedNew + [found.value];
        changed := changed + [ChangedRoute(removed[i], added[found.value], Reason(removed[i], added[found.value]))];
      }
    }
  }
}
