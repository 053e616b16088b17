/** Sorting by a strict order, as the libraries of the system do it: the result is sorted, a permutation, and unique. */
module Sorting {

  /** A strict total order among the values that satisfy on. */
  ghost predicate StrictOrder<T(!new)>(before: (T, T) -> bool, on: T -> bool) {
    && (forall a, b :: on(a) && on(b) && before(a, b) ==> !before(b, a))
    && (forall a, b, c :: on(a) && on(b) && on(c) && before(a, b) && before(b, c) ==> before(a, c))
    && (forall a, b :: on(a) && on(b) ==> a == b || before(a, b) || before(b, a))
  }

  ghost predicate AllOn<T>(s: seq<T>, on: T -> bool) {
    forall i :: 0 <= i < |s| ==> on(s[i])
  }

  ghost predicate Sorted<T>(s: seq<T>, before: (T, T) -> bool) {
    forall i, j :: 0 <= i < j < |s| ==> !before(s[j], s[i])
  }

  function Insert<T>(s: seq<T>, x: T, before: (T, T) -> bool): (r: seq<T>)
    ensures multiset(r) == multiset(s) + multiset{x}
    decreases |s|
  {
    if s == [] then [x]
    else if before(x, s[0]) then [x] + s
    else
      assert s == [s[0]] + s[1..];
      [s[0]] + Insert(s[1..], x, before)
  }

  function Sort<T>(s: seq<T>, before: (T, T) -> bool): (r: seq<T>)
    ensures multiset(r) == multiset(s)
    decreases |s|
  {
    if s == [] then []
    else
      assert s == s[..|s| - 1] + [s[|s| - 1]];
      Insert(Sort(s[..|s| - 1], before), s[|s| - 1], before)
  }

  lemma SameElements<T>(a: seq<T>, b: seq<T>)
    requires multiset(a) == multiset(b)
    ensures |a| == |b| && forall x :: x in a <==> x in b
  {
    assert |multiset(a)| == |a| && |multiset(b)| == |b|;
    assert forall x :: x in a <==> x in multiset(a);
    assert forall x :: x in b <==> x in multiset(b);
  }

  lemma AllOnSame<T>(a: seq<T>, b: seq<T>, on: T -> bool)
    requires multiset(a) == multiset(b) && AllOn(a, on)
    ensures AllOn(b, on)
  {
    SameElements(a, b);
    forall i | 0 <= i < |b|
      ensures on(b[i])
    {
      assert b[i] in a;
    }
  }

  lemma {:induction false} InsertSorted<T(!new)>(s: seq<T>, x: T, before: (T, T) -> bool, on: T -> bool)
    requires StrictOrder(before, on) && AllOn(s, on) && on(x) && Sorted(s, before)
    ensures Sorted(Insert(s, x, before), before)
    decreases |s|
  {
    if s != [] && !before(x, s[0]) {
      var rest := Insert(s[1..], x, before);
      InsertSorted(s[1..], x, before, on);
      SameElements(rest, s[1..] + [x]);
      forall j | 0 <= j < |rest|
        ensures !before(rest[j], s[0])
      {
        assert rest[j] in s[1..] + [x];
      }
    } else if s != [] {
      forall j | 0 <= j < |s|
        ensures !before(s[j], x)
      {
        assert on(s[0]) && on(s[j]);
        assert j > 0 ==> !before(s[j], s[0]);
      }
    }
  }

  lemma {:induction false} SortSorts<T(!new)>(s: seq<T>, before: (T, T) -> bool, on: T -> bool)
    requires StrictOrder(before, on) && AllOn(s, on)
    ensures Sorted(Sort(s, before), before)
    decreases |s|
  {
    if s != [] {
      var front := s[..|s| - 1];
      SortSorts(front, before, on);
      AllOnSame(front, Sort(front, before), on);
      InsertSorted(Sort(front, before), s[|s| - 1], before, on);
    }
  }

  lemma HeadIsLeast<T(!new)>(a: seq<T>, b: seq<T>, before: (T, T) -> bool)
    requires Sorted(a, before) && a != [] && b != [] && b[0] in a
    ensures b[0] == a[0] || !before(b[0], a[0])
  {
    var j :| 0 <= j < |a| && a[j] == b[0];
    if j > 0 {
      assert !before(a[j], a[0]);
    }
  }

  /** A list has only one sorted arrangement. */
  lemma {:induction false} SortedIsUnique<T(!new)>(a: seq<T>, b: seq<T>, before: (T, T) -> bool, on: T -> bool)
    requires StrictOrder(before, on) && AllOn(a, on) && Sorted(a, before) && Sorted(b, before) && multiset(a) == multiset(b)
    ensures a == b
    decreases |a|
  {
    SameElements(a, b);
    AllOnSame(a, b, on);
    if a != [] {
      HeadIsLeast(a, b, before);
      HeadIsLeast(b, a, before);
      assert on(a[0]) && on(b[0]);
      assert a == [a[0]] + a[1..] && b == [b[0]] + b[1..];
      assert multiset(a[1..]) == multiset(a) - multiset{a[0]} == multiset(b) - multiset{b[0]} == multiset(b[1..]);
      hide StrictOrder;
      SortedIsUnique(a[1..], b[1..], before, on);
    }
  }

  lemma RepeatedElement<T>(s: seq<T>, i: nat, j: nat)
    requires i < j < |s| && s[i] == s[j]
    ensures multiset(s)[s[i]] >= 2
  {
    assert s == s[..j] + s[j..];
    assert s[i] == s[..j][i] && s[j] == s[j..][0];
    assert s[i] in multiset(s[..j]) && s[i] in multiset(s[j..]);
  }
}
