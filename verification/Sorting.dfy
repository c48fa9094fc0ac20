/** What an ORDER BY, or Python's sorted(), yields: the elements of a finite
    set in the order of a strict total order. */
module Sorting {

  ghost predicate StrictTotalOrder<T(!new)>(less: (T, T) -> bool) {
    && (forall x :: !less(x, x))
    && (forall x, y :: x != y ==> less(x, y) || less(y, x))
    && (forall x, y :: less(x, y) ==> !less(y, x))
    && (forall x, y, z :: less(x, y) && less(y, z) ==> less(x, z))
  }

  ghost predicate Sorted<T(!new)>(s: seq<T>, less: (T, T) -> bool) {
    forall i, j :: 0 <= i < j < |s| ==> less(s[i], s[j])
  }

  predicate IsFirst<T(==)>(x: T, s: set<T>, less: (T, T) -> bool) {
    x in s && forall y :: y in s ==> y == x || less(x, y)
  }

  lemma {:induction false} FirstExists<T(!new)>(s: set<T>, less: (T, T) -> bool)
    requires StrictTotalOrder(less) && s != {}
    ensures exists x :: IsFirst(x, s, less)
    decreases |s|
  {
    var x :| x in s;
    var rest := s - {x};
    if rest == {} {
      assert s == {x};
      assert IsFirst(x, s, less);
    } else {
      FirstExists(rest, less);
      var y :| IsFirst(y, rest, less);
      if less(x, y) {
        assert IsFirst(x, s, less);
      } else {
        assert IsFirst(y, s, less);
      }
    }
  }

  function Sort<T(!new,==)>(s: set<T>, less: (T, T) -> bool): seq<T>
    requires StrictTotalOrder(less)
    decreases |s|
  {
    if s == {} then [] else
      FirstExists(s, less);
      var x :| IsFirst(x, s, less);
      [x] + Sort(s - {x}, less)
  }

  lemma {:induction false} SortFacts<T(!new)>(s: set<T>, less: (T, T) -> bool)
    requires StrictTotalOrder(less)
    ensures Sorted(Sort(s, less), less)
    ensures forall x :: x in Sort(s, less) <==> x in s
    ensures |Sort(s, less)| == |s|
    decreases |s|
  {
    if s != {} {
      FirstExists(s, less);
      var x :| IsFirst(x, s, less);
      assert Sort(s, less) == [x] + Sort(s - {x}, less) by {
        assert forall y :: IsFirst(y, s, less) ==> y == x;
      }
      SortFacts(s - {x}, less);
    }
  }

  /** A sorted sequence is determined by its elements. */
  lemma {:induction false} SortedUnique<T(!new)>(a: seq<T>, b: seq<T>, less: (T, T) -> bool)
    requires StrictTotalOrder(less)
    requires Sorted(a, less) && Sorted(b, less)
    requires forall x :: x in a <==> x in b
    ensures a == b
  {
    assert forall i :: 0 <= i < |a| ==> a[i] in b;
    assert forall i :: 0 <= i < |b| ==> b[i] in a;
    if a != [] && b != [] {
      assert a[0] in b && b[0] in a;
      assert a[0] == b[0];
      forall x ensures x in a[1..] <==> x in b[1..] {
        if x in a[1..] { assert x in a && x != a[0]; assert x in b; }
        if x in b[1..] { assert x in b && x != b[0]; assert x in a; }
      }
      SortedUnique(a[1..], b[1..], less);
    }
  }

  /** A sorted sequence has no duplicates. */
  lemma {:induction false} SortedSize<T(!new)>(s: seq<T>, less: (T, T) -> bool)
    requires (forall x :: !less(x, x)) && Sorted(s, less)
    ensures |set x | x in s| == |s|
  {
    if s != [] {
      var init, x := s[..|s| - 1], s[|s| - 1];
      SortedSize(init, less);
      assert forall i :: 0 <= i < |init| ==> less(init[i], x);
      assert (set y | y in s) == (set y | y in init) + {x};
    }
  }
}
