/**
 * Strict total orders and the sorted view of a finite set under one: the model of
 * iterating a Java `TreeSet` built with an explicit `Comparator`.
 */
module Ordering {

  /** `before` is irreflexive, transitive and relates every two distinct values. */
  ghost predicate StrictTotalOrder<T(!new)>(before: (T, T) -> bool) {
    && (forall x :: !before(x, x))
    && (forall x, y, z :: before(x, y) && before(y, z) ==> before(x, z))
    && (forall x, y :: x != y ==> before(x, y) || before(y, x))
  }

  /** Every element of `r` comes strictly before every later one. */
  ghost predicate Sorted<T>(r: seq<T>, before: (T, T) -> bool) {
    forall i, j :: 0 <= i < j < |r| ==> before(r[i], r[j])
  }

  predicate IsLeast<T(==)>(x: T, s: set<T>, before: (T, T) -> bool) {
    x in s && forall y :: y in s && y != x ==> before(x, y)
  }

  lemma {:induction false} LeastExists<T(!new)>(s: set<T>, before: (T, T) -> bool)
    requires s != {}
    requires StrictTotalOrder(before)
    ensures exists x :: IsLeast(x, s, before)
    decreases |s|
  {
    var y :| y in s;
    var rest := s - {y};
    if rest == {} {
      assert s == {y};
      assert IsLeast(y, s, before);
    } else {
      LeastExists(rest, before);
      var x :| IsLeast(x, rest, before);
      if before(x, y) {
        assert IsLeast(x, s, before);
      } else {
        assert IsLeast(y, s, before);
      }
    }
  }

  /** The first element of `s` in the order `before`. */
  function Least<T(!new)>(s: set<T>, before: (T, T) -> bool): (x: T)
    requires s != {}
    requires StrictTotalOrder(before)
    ensures IsLeast(x, s, before)
  {
    LeastExists(s, before);
    var x :| IsLeast(x, s, before);
    x
  }

  /** The elements of `s`, each once, in the order `before`: what iterating a `TreeSet` yields. */
  function SortSet<T(!new)>(s: set<T>, before: (T, T) -> bool): (r: seq<T>)
    requires StrictTotalOrder(before)
    ensures |r| == |s|
    ensures forall i :: 0 <= i < |r| ==> r[i] in s
    ensures forall x :: x in s ==> x in r
    ensures Sorted(r, before)
    decreases |s|
  {
    if s == {} then []
    else
      var x := Least(s, before);
      [x] + SortSet(s - {x}, before)
  }

  /** A sequence sorted under a strict total order is determined by its elements. */
  lemma {:induction false} SortedUnique<T(!new)>(a: seq<T>, b: seq<T>, before: (T, T) -> bool)
    requires StrictTotalOrder(before)
    requires Sorted(a, before) && Sorted(b, before)
    requires forall x :: x in a <==> x in b
    ensures a == b
    decreases |a|
  {
    assert forall i :: 0 <= i < |a| ==> a[i] in a;
    assert forall i :: 0 <= i < |b| ==> b[i] in b;
    if |a| > 0 && |b| > 0 {
      // Each head lies in the other sequence, so neither can come after the other.
      assert a[0] == b[0];
      forall x
        ensures x in a[1..] <==> x in b[1..]
      {
        if x in a[1..] {
          var i :| 1 <= i < |a| && a[i] == x;
          assert x in b;
          var k :| 0 <= k < |b| && b[k] == x;
          assert k != 0;
          assert b[1..][k - 1] == x;
        }
        if x in b[1..] {
          var i :| 1 <= i < |b| && b[i] == x;
          assert x in a;
          var k :| 0 <= k < |a| && a[k] == x;
          assert k != 0;
          assert a[1..][k - 1] == x;
        }
      }
      SortedUnique(a[1..], b[1..], before);
      assert a == [a[0]] + a[1..] && b == [b[0]] + b[1..];
    }
  }
}
