/** Insertion sort under a strict total order, and why its result does not depend on the input's order. */
module Sorting {
  ghost predicate StrictOrder<T(!new)>(before: (T, T) -> bool) {
    && (forall a :: !before(a, a))
    && (forall a, b :: before(a, b) || before(b, a) || a == b)
    && (forall a, b, c :: before(a, b) && before(b, c) ==> before(a, c))
  }

  function Insert<T(==)>(s: seq<T>, x: T, before: (T, T) -> bool): seq<T> {
    if s == [] || x == s[0] || before(x, s[0]) then [x] + s else [s[0]] + Insert(s[1..], x, before)
  }

  function Sort<T(==)>(s: seq<T>, before: (T, T) -> bool): seq<T> {
    if s == [] then [] else Insert(Sort(s[1..], before), s[0], before)
  }

  ghost predicate AtLeast<T(!new)>(s: seq<T>, low: T, before: (T, T) -> bool) {
    forall y :: y in s ==> y == low || before(low, y)
  }

  ghost predicate Ascending<T(!new)>(s: seq<T>, before: (T, T) -> bool) {
    s == [] || (AtLeast(s[1..], s[0], before) && Ascending(s[1..], before))
  }

  lemma {:induction false} InsertAdds<T>(s: seq<T>, x: T, before: (T, T) -> bool)
    ensures multiset(Insert(s, x, before)) == multiset(s) + multiset{x}
  {
    if s != [] && x != s[0] && !before(x, s[0]) {
      InsertAdds(s[1..], x, before);
      assert s == [s[0]] + s[1..];
    }
  }

  lemma InsertHolds<T>(s: seq<T>, x: T, before: (T, T) -> bool, y: T)
    ensures y in Insert(s, x, before) <==> y == x || y in s
  {
    InsertAdds(s, x, before);
    assert y in Insert(s, x, before) <==> y in multiset(Insert(s, x, before));
    assert y in s <==> y in multiset(s);
  }

  lemma {:induction false} InsertAscending<T(!new)>(s: seq<T>, x: T, before: (T, T) -> bool)
    requires StrictOrder(before) && Ascending(s, before)
    ensures Ascending(Insert(s, x, before), before)
  {
    var r := Insert(s, x, before);
    if s == [] || x == s[0] || before(x, s[0]) {
      assert r[1..] == s;
      if s != [] {
        forall y | y in s ensures y == x || before(x, y) {
          assert y == s[0] || y in s[1..];
        }
      }
    } else {
      assert r[1..] == Insert(s[1..], x, before);
      InsertAscending(s[1..], x, before);
      forall y | y in r[1..] ensures y == s[0] || before(s[0], y) {
        InsertHolds(s[1..], x, before, y);
      }
    }
  }

  lemma {:induction false} SortAscending<T(!new)>(s: seq<T>, before: (T, T) -> bool)
    requires StrictOrder(before)
    ensures Ascending(Sort(s, before), before) && multiset(Sort(s, before)) == multiset(s)
  {
    if s != [] {
      SortAscending(s[1..], before);
      InsertAscending(Sort(s[1..], before), s[0], before);
      InsertAdds(Sort(s[1..], before), s[0], before);
      TailCounts(s);
    }
  }

  lemma TailCounts<T>(s: seq<T>)
    requires s != []
    ensures multiset(s[1..]) == multiset(s) - multiset{s[0]}
  {
    assert s == [s[0]] + s[1..];
  }

  lemma FirstsAgree<T(!new)>(a: seq<T>, b: seq<T>, before: (T, T) -> bool)
    requires StrictOrder(before) && a != [] && b != [] && AtLeast(a[1..], a[0], before) && AtLeast(b[1..], b[0], before)
    requires multiset(a) == multiset(b)
    ensures a[0] == b[0]
  {
    FirstLeast(a, b[0], before);
    FirstLeast(b, a[0], before);
  }

  lemma FirstLeast<T(!new)>(s: seq<T>, x: T, before: (T, T) -> bool)
    requires s != [] && AtLeast(s[1..], s[0], before) && x in multiset(s)
    ensures x == s[0] || before(s[0], x)
  {
    assert s == [s[0]] + s[1..];
  }

  /** An ascending list is determined by its elements and how often each occurs. */
  lemma {:induction false} AscendingUnique<T(!new)>(a: seq<T>, b: seq<T>, before: (T, T) -> bool)
    requires StrictOrder(before) && Ascending(a, before) && Ascending(b, before) && multiset(a) == multiset(b)
    ensures a == b
  {
    assert |multiset(a)| == |a| && |multiset(b)| == |b|;
    if a != [] {
      FirstsAgree(a, b, before);
      TailCounts(a);
      TailCounts(b);
      AscendingUnique(a[1..], b[1..], before);
      assert a == [a[0]] + a[1..] && b == [b[0]] + b[1..];
    }
  }

  lemma {:induction false} SortCanonical<T(!new)>(a: seq<T>, b: seq<T>, before: (T, T) -> bool)
    requires StrictOrder(before) && multiset(a) == multiset(b)
    ensures Sort(a, before) == Sort(b, before)
  {
    SortAscending(a, before);
    SortAscending(b, before);
    AscendingUnique(Sort(a, before), Sort(b, before), before);
  }
}
