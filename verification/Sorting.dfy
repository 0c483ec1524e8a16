/** Go's `sort.Slice` for a strict total order: some stable insertion sort, and the fact that every sorted
    rearrangement is the same list, so the algorithm does not matter. */
module Sorting {
  type Order<!T> = (T, T) -> bool

  /** A strict total order. */
  ghost predicate Total<T(!new)>(before: Order<T>) {
    && (forall a, b :: before(a, b) ==> !before(b, a))
    && (forall a, b, c :: before(a, b) && before(b, c) ==> before(a, c))
    && (forall a, b :: a == b || before(a, b) || before(b, a))
  }

  /** Nothing is before an element in front of it. */
  predicate Ascending<T>(before: Order<T>, s: seq<T>) {
    forall i, j :: 0 <= i < j < |s| ==> !before(s[j], s[i])
  }

  /** Everything is before the elements behind it. */
  predicate StrictlyAscending<T>(before: Order<T>, s: seq<T>) {
    forall i, j :: 0 <= i < j < |s| ==> before(s[i], s[j])
  }

  function Inserted<T>(before: Order<T>, s: seq<T>, x: T): seq<T> {
    if s == [] || !before(x, s[|s|-1]) then s + [x]
    else Inserted(before, s[..|s|-1], x) + [s[|s|-1]]
  }

  function Sorted<T>(before: Order<T>, s: seq<T>): seq<T> {
    if s == [] then [] else Inserted(before, Sorted(before, s[..|s|-1]), s[|s|-1])
  }

  lemma SplitLast<T>(s: seq<T>)
    requires s != []
    ensures multiset(s) == multiset(s[..|s|-1]) + multiset{s[|s|-1]}
  {
    assert s == s[..|s|-1] + [s[|s|-1]];
  }

  lemma {:induction false} InsertedSame<T>(before: Order<T>, s: seq<T>, x: T)
    ensures multiset(Inserted(before, s, x)) == multiset(s) + multiset{x}
  {
    if s != [] && before(x, s[|s|-1]) {
      InsertedSame(before, s[..|s|-1], x);
      SplitLast(s);
    }
  }

  /** What is not before the last element of an ascending list is before none of them. */
  lemma NotBeforeLast<T(!new)>(before: Order<T>, s: seq<T>, x: T, y: T)
    requires Total(before) && Ascending(before, s) && x in s && !before(y, s[|s|-1])
    ensures !before(y, x)
  {
    assert x == s[|s|-1] || before(x, s[|s|-1]);
  }

  lemma {:induction false} InsertedAscending<T(!new)>(before: Order<T>, s: seq<T>, x: T)
    requires Total(before) && Ascending(before, s)
    ensures Ascending(before, Inserted(before, s, x))
  {
    if s == [] {
    } else if !before(x, s[|s|-1]) {
      forall y | y in s
        ensures !before(x, y)
      {
        NotBeforeLast(before, s, y, x);
      }
    } else {
      var n := |s| - 1;
      InsertedAscending(before, s[..n], x);
      InsertedSame(before, s[..n], x);
      forall y | y in Inserted(before, s[..n], x)
        ensures !before(s[n], y)
      {
        assert y in multiset(s[..n]) + multiset{x};
      }
    }
  }

  lemma {:induction false} SortedSorts<T(!new)>(before: Order<T>, s: seq<T>)
    requires Total(before)
    ensures Ascending(before, Sorted(before, s)) && multiset(Sorted(before, s)) == multiset(s)
  {
    if s != [] {
      var front, last := s[..|s|-1], s[|s|-1];
      SortedSorts(before, front);
      InsertedAscending(before, Sorted(before, front), last);
      InsertedSame(before, Sorted(before, front), last);
      SplitLast(s);
    }
  }

  lemma SortedElements<T(!new)>(before: Order<T>, s: seq<T>, x: T)
    requires Total(before)
    ensures x in Sorted(before, s) <==> x in s
  {
    SortedSorts(before, s);
    assert x in multiset(Sorted(before, s)) <==> x in multiset(s);
  }

  lemma SameLast<T(!new)>(before: Order<T>, a: seq<T>, b: seq<T>)
    requires Total(before) && Ascending(before, a) && Ascending(before, b) && a != [] && b != []
    requires b[|b|-1] in a && a[|a|-1] in b
    ensures a[|a|-1] == b[|b|-1]
  {
    var x, y := a[|a|-1], b[|b|-1];
    assert !before(x, y) && !before(y, x);
  }

  lemma SameWithoutLast<T>(a: seq<T>, b: seq<T>)
    requires a != [] && b != [] && multiset(a) == multiset(b) && a[|a|-1] == b[|b|-1]
    ensures multiset(a[..|a|-1]) == multiset(b[..|b|-1])
  {
    SplitLast(a);
    SplitLast(b);
    assert multiset(a[..|a|-1]) == multiset(a) - multiset{a[|a|-1]};
    assert multiset(b[..|b|-1]) == multiset(b) - multiset{a[|a|-1]};
  }

  /** There is only one ascending list with given elements. */
  lemma {:induction false} SortIsUnique<T(!new)>(before: Order<T>, a: seq<T>, b: seq<T>)
    requires Total(before) && Ascending(before, a) && Ascending(before, b) && multiset(a) == multiset(b)
    ensures a == b
    decreases a
  {
    if a == [] {
      assert |multiset(b)| == 0;
    } else {
      assert a[|a|-1] in multiset(a) && b != [] && b[|b|-1] in multiset(b);
      SameLast(before, a, b);
      SameWithoutLast(a, b);
      SortIsUnique(before, a[..|a|-1], b[..|b|-1]);
      assert a == a[..|a|-1] + [a[|a|-1]] && b == b[..|b|-1] + [b[|b|-1]];
    }
  }

  lemma StrictIsAscending<T(!new)>(before: Order<T>, s: seq<T>)
    requires Total(before) && StrictlyAscending(before, s)
    ensures Ascending(before, s)
  {
  }

  /** A list that had no `x` stays strictly ascending. */
  lemma {:induction false} InsertedStrict<T(!new)>(before: Order<T>, s: seq<T>, x: T)
    requires Total(before) && StrictlyAscending(before, s) && x !in s
    ensures StrictlyAscending(before, Inserted(before, s, x))
  {
    if s == [] {
    } else if !before(x, s[|s|-1]) {
      assert before(s[|s|-1], x);
      forall i | 0 <= i < |s|
        ensures before(s[i], x)
      {
        assert i == |s| - 1 || before(s[i], s[|s|-1]);
      }
    } else {
      var n := |s| - 1;
      InsertedStrict(before, s[..n], x);
      InsertedSame(before, s[..n], x);
      forall y | y in Inserted(before, s[..n], x)
        ensures before(y, s[n])
      {
        assert y in multiset(s[..n]) + multiset{x};
      }
    }
  }

  lemma InsertedElements<T>(before: Order<T>, s: seq<T>, x: T, y: T)
    ensures y in Inserted(before, s, x) <==> y in s || y == x
  {
    InsertedSame(before, s, x);
    assert y in multiset(Inserted(before, s, x)) <==> y in multiset(s) + multiset{x};
  }

  lemma EmptyOrNot<T(!new)>(s: seq<T>)
    ensures s == [] || exists x :: x in s
  {
    if s != [] {
      assert s[0] in s;
    }
  }

  /** Strictly ascending lists with the same elements are the same list. */
  lemma {:induction false} StrictIsUnique<T(!new)>(before: Order<T>, a: seq<T>, b: seq<T>)
    requires Total(before) && StrictlyAscending(before, a) && StrictlyAscending(before, b)
    requires forall x :: x in a <==> x in b
    ensures a == b
    decreases a
  {
    if a == [] {
      EmptyOrNot(b);
    } else {
      assert a[|a|-1] in b && b[|b|-1] in a;
      StrictIsAscending(before, a);
      StrictIsAscending(before, b);
      SameLast(before, a, b);
      var a', b' := a[..|a|-1], b[..|b|-1];
      forall x
        ensures x in a' <==> x in b'
      {
        InFront(before, a, x);
        InFront(before, b, x);
      }
      StrictIsUnique(before, a', b');
      assert a == a' + [a[|a|-1]] && b == b' + [b[|b|-1]];
    }
  }

  lemma InFront<T(!new)>(before: Order<T>, s: seq<T>, x: T)
    requires Total(before) && StrictlyAscending(before, s) && s != []
    ensures x in s[..|s|-1] <==> x in s && x != s[|s|-1]
  {
    var n := |s| - 1;
    assert s == s[..n] + [s[n]];
    if x in s[..n] {
      assert before(x, s[n]);
    }
  }

  lemma {:induction false} StrictSize<T(!new)>(before: Order<T>, s: seq<T>)
    requires Total(before) && StrictlyAscending(before, s)
    ensures |set x | x in s| == |s|
    decreases s
  {
    if s != [] {
      var n := |s| - 1;
      StrictSize(before, s[..n]);
      InFront(before, s, s[n]);
      assert (set x | x in s) == (set x | x in s[..n]) + {s[n]};
    }
  }
}
