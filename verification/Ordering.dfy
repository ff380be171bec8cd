/**
 Strict total orders and the ascending enumeration of a finite set, which is what both an
 SQL `ORDER BY` over a unique key and a `sort.Slice` over map keys produce.
 */
module Ordering {

  ghost predicate StrictTotalOrder<T(!new)>(less: (T, T) -> bool) {
    && (forall x :: !less(x, x))
    && (forall x, y, z {:trigger less(x, y), less(y, z)} :: less(x, y) && less(y, z) ==> less(x, z))
    && (forall x, y :: x != y ==> less(x, y) || less(y, x))
  }

  predicate Ascending<T>(s: seq<T>, less: (T, T) -> bool) {
    forall i, j | 0 <= i < j < |s| :: less(s[i], s[j])
  }

  predicate IsLeast<T(==)>(x: T, s: set<T>, less: (T, T) -> bool) {
    x in s && forall y | y in s :: y == x || less(x, y)
  }

  lemma {:induction false} LeastExists<T(!new)>(s: set<T>, less: (T, T) -> bool)
    requires StrictTotalOrder(less) && s != {}
    ensures exists x :: IsLeast(x, s, less)
    decreases |s|
  {
    var x :| x in s;
    if s == {x} {
      assert IsLeast(x, s, less);
    } else {
      assert |s - {x}| < |s|;
      LeastExists(s - {x}, less);
      var y :| IsLeast(y, s - {x}, less);
      var z := if less(x, y) then x else y;
      forall w | w in s
        ensures w == z || less(z, w)
      {
        assert w == x || w == y || less(y, w);
      }
      assert IsLeast(z, s, less);
    }
  }

  function Least<T(!new, ==)>(s: set<T>, less: (T, T) -> bool): (x: T)
    requires StrictTotalOrder(less) && s != {}
    ensures IsLeast(x, s, less)
  {
    LeastExists(s, less);
    var x :| IsLeast(x, s, less);
    x
  }

  /** The elements of s in ascending order, each once. */
  function Sorted<T(!new, ==)>(s: set<T>, less: (T, T) -> bool): (r: seq<T>)
    requires StrictTotalOrder(less)
    ensures |r| == |s| && (forall x :: x in r <==> x in s) && Ascending(r, less)
    decreases |s|
  {
    if s == {} then []
    else
      var x := Least(s, less);
      var rest := Sorted(s - {x}, less);
      assert forall i | 0 <= i < |rest| :: rest[i] in s - {x};
      [x] + rest
  }

  /** An ascending sequence is determined by its elements. */
  lemma {:induction false} AscendingUnique<T(!new)>(a: seq<T>, b: seq<T>, less: (T, T) -> bool)
    requires StrictTotalOrder(less) && Ascending(a, less) && Ascending(b, less)
    requires forall x :: x in a <==> x in b
    ensures a == b
  {
    assert a != [] ==> a[0] in b;
    assert b != [] ==> b[0] in a;
    if a != [] && b != [] {
      assert a[0] == b[0];
      assert forall x :: x in a[1..] <==> x in a && x != a[0];
      assert forall x :: x in b[1..] <==> x in b && x != b[0];
      AscendingUnique(a[1..], b[1..], less);
    }
  }

  lemma CardinalityMonotone<T>(a: set<T>, b: set<T>)
    requires a <= b
    ensures |a| <= |b|
  {
    assert b == a + (b - a);
  }

  // ----- strings

  /** Strings by code unit, a prefix before its extensions; the empty string comes first. */
  predicate Before(a: string, b: string) {
    b != [] && (a == [] || a[0] < b[0] || (a[0] == b[0] && Before(a[1..], b[1..])))
  }

  lemma BeforeIrreflexive(a: string)
    ensures !Before(a, a)
  {
  }

  lemma BeforeTransitive(a: string, b: string, c: string)
    requires Before(a, b) && Before(b, c)
    ensures Before(a, c)
  {
  }

  lemma {:induction false} BeforeTotal(a: string, b: string)
    requires a != b
    ensures Before(a, b) || Before(b, a)
  {
    if a != [] && b != [] && a[0] == b[0] {
      assert a == [a[0]] + a[1..] && b == [b[0]] + b[1..];
      BeforeTotal(a[1..], b[1..]);
    }
  }

  lemma BeforeIsStrictTotalOrder()
    ensures StrictTotalOrder(Before)
  {
    forall a: string
      ensures !Before(a, a)
    {
      BeforeIrreflexive(a);
    }
    forall a: string, b: string, c: string | Before(a, b) && Before(b, c)
      ensures Before(a, c)
    {
      BeforeTransitive(a, b, c);
    }
    forall a: string, b: string | a != b
      ensures Before(a, b) || Before(b, a)
    {
      BeforeTotal(a, b);
    }
  }
}
