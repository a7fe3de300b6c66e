/** Stable sorting by a total preorder, and when two sequences sort to the same one. */
module Sorting {
  import opened Prelude

  ghost predicate TotalPreorder<T(!new)>(le: (T, T) -> bool) {
    && (forall x, y :: le(x, y) || le(y, x))
    && (forall x, y, z :: le(x, y) && le(y, z) ==> le(x, z))
  }

  ghost predicate Sorted<T(!new)>(s: seq<T>, le: (T, T) -> bool) {
    s == [] || (Below(s[0], s[1..], le) && Sorted(s[1..], le))
  }

  ghost predicate Below<T(!new)>(x: T, s: seq<T>, le: (T, T) -> bool) {
    forall y :: y in multiset(s) ==> le(x, y)
  }

  /** Puts `x` before the first element it is below. */
  function Insert<T>(x: T, s: seq<T>, le: (T, T) -> bool): seq<T> {
    if s == [] then [x]
    else if le(x, s[0]) then [x] + s
    else [s[0]] + Insert(x, s[1..], le)
  }

  function Sort<T>(s: seq<T>, le: (T, T) -> bool): seq<T> {
    if s == [] then [] else Insert(s[0], Sort(s[1..], le), le)
  }

  lemma {:induction false} InsertIsSorted<T(!new)>(x: T, s: seq<T>, le: (T, T) -> bool)
    requires TotalPreorder(le) && Sorted(s, le)
    ensures multiset(Insert(x, s, le)) == multiset{x} + multiset(s)
    ensures Sorted(Insert(x, s, le), le)
  {
    if s != [] {
      var head, tail := s[0], s[1..];
      assert s == [head] + tail;
      if le(x, head) {
        assert ([x] + s)[1..] == s;
        assert forall y :: le(head, y) ==> le(x, y);
      } else {
        InsertIsSorted(x, tail, le);
        assert ([head] + Insert(x, tail, le))[1..] == Insert(x, tail, le);
      }
    }
  }

  lemma {:induction false} SortSorts<T(!new)>(s: seq<T>, le: (T, T) -> bool)
    requires TotalPreorder(le)
    ensures Sorted(Sort(s, le), le)
    ensures multiset(Sort(s, le)) == multiset(s)
  {
    if s != [] {
      assert s == [s[0]] + s[1..];
      SortSorts(s[1..], le);
      InsertIsSorted(s[0], Sort(s[1..], le), le);
    }
  }

  lemma {:induction false} SortKeepsSorted<T(!new)>(s: seq<T>, le: (T, T) -> bool)
    requires Sorted(s, le)
    ensures Sort(s, le) == s
  {
    if s != [] {
      SortKeepsSorted(s[1..], le);
      assert s == [s[0]] + s[1..];
      if |s| > 1 {
        assert s[1] in multiset(s[1..]);
      }
    }
  }

  /** Only equal elements of `s` tie. */
  ghost predicate Antisymmetric<T(!new)>(s: seq<T>, le: (T, T) -> bool) {
    forall x, y :: x in multiset(s) && y in multiset(s) && le(x, y) && le(y, x) ==> x == y
  }

  lemma SameHead<T(!new)>(a: T, s: seq<T>, b: T, t: seq<T>, le: (T, T) -> bool)
    requires Below(a, s, le) && Below(b, t, le)
    requires multiset{a} + multiset(s) == multiset{b} + multiset(t)
    requires le(a, b) && le(b, a) ==> a == b
    ensures a == b && multiset(s) == multiset(t)
  {
    var whole := multiset{a} + multiset(s);
    assert whole[a] > 0 && whole[b] > 0;
    assert multiset(s) == multiset{a} + multiset(s) - multiset{a};
    assert multiset(t) == multiset{b} + multiset(t) - multiset{b};
  }

  /** A sorted arrangement is unique once ties only occur between equal elements. */
  lemma {:induction false} SortedIsUnique<T(!new)>(s: seq<T>, t: seq<T>, le: (T, T) -> bool)
    requires Sorted(s, le) && Sorted(t, le) && multiset(s) == multiset(t)
    requires Antisymmetric(s, le)
    ensures s == t
  {
    assert |t| == |multiset(t)| == |multiset(s)| == |s|;
    if s != [] {
      assert s == [s[0]] + s[1..] && t == [t[0]] + t[1..];
      assert s[0] in multiset(s) && t[0] in multiset(t);
      SameHead(s[0], s[1..], t[0], t[1..], le);
      SortedIsUnique(s[1..], t[1..], le);
    }
  }

  /** Two sequences sort to the same one exactly when each is a rearrangement of the other. */
  lemma SortForgetsOrder<T(!new)>(s: seq<T>, t: seq<T>, le: (T, T) -> bool)
    requires TotalPreorder(le)
    requires Antisymmetric(s, le)
    ensures Sort(s, le) == Sort(t, le) <==> multiset(s) == multiset(t)
  {
    SortSorts(s, le);
    SortSorts(t, le);
    if multiset(s) == multiset(t) {
      SortedIsUnique(Sort(s, le), Sort(t, le), le);
    }
  }

  lemma {:induction false} DistinctMultiplicity<T>(s: seq<T>, x: T)
    requires Distinct(s)
    ensures multiset(s)[x] == if x in s then 1 else 0
  {
    if s != [] {
      assert s == [s[0]] + s[1..];
      DistinctMultiplicity(s[1..], x);
    }
  }

  lemma {:induction false} SingleMultiplicity<T(!new)>(s: seq<T>)
    requires forall x :: multiset(s)[x] <= 1
    ensures Distinct(s)
  {
    if s != [] {
      var head, tail := s[0], s[1..];
      assert s == [head] + tail;
      assert multiset(s) == multiset{head} + multiset(tail);
      forall x ensures multiset(tail)[x] <= 1 {
        assert multiset(s)[x] <= 1;
      }
      SingleMultiplicity(tail);
      assert multiset(s)[head] <= 1;
      assert head !in tail;
    }
  }

  /** Sequences without repetition that hold the same elements are rearrangements of each other. */
  lemma DistinctSameElements<T>(s: seq<T>, t: seq<T>)
    requires Distinct(s) && Distinct(t)
    ensures multiset(s) == multiset(t) <==> (forall x :: x in s <==> x in t)
  {
    if forall x :: x in s <==> x in t {
      forall x ensures multiset(s)[x] == multiset(t)[x] {
        DistinctMultiplicity(s, x);
        DistinctMultiplicity(t, x);
      }
    }
    if multiset(s) == multiset(t) {
      forall x ensures x in s <==> x in t {
        assert x in s <==> x in multiset(s);
      }
    }
  }

  /** Alphabetical order on text. */
  predicate TextLe(a: string, b: string) {
    a == "" || (b != "" && (a[0] < b[0] || (a[0] == b[0] && TextLe(a[1..], b[1..]))))
  }

  lemma {:induction false} TextTotal(a: string, b: string)
    ensures TextLe(a, b) || TextLe(b, a)
    ensures TextLe(a, b) && TextLe(b, a) ==> a == b
  {
    if a != "" && b != "" && a[0] == b[0] {
      TextTotal(a[1..], b[1..]);
      assert a == [a[0]] + a[1..] && b == [b[0]] + b[1..];
    }
  }

  lemma {:induction false} TextTransitive(a: string, b: string, c: string)
    requires TextLe(a, b) && TextLe(b, c)
    ensures TextLe(a, c)
  {
    if a != "" && a[0] == b[0] == c[0] {
      TextTransitive(a[1..], b[1..], c[1..]);
    }
  }
}
