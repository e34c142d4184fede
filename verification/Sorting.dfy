/**
 * The library sort, known by its contract alone: it permutes, and leaves nothing out of
 * order. (It is not stable, and nothing here says it is.)
 */
module Sorting {
  import opened Base

  /** A strict weak order. */
  ghost predicate IsOrder<T(!new)>(less: (T, T) -> bool) {
    && (forall x :: !less(x, x))
    && (forall x, y, z :: less(x, y) && less(y, z) ==> less(x, z))
    && (forall x, y, z :: less(x, y) ==> less(x, z) || less(z, y))
  }

  ghost predicate Ordered<T>(s: seq<T>, less: (T, T) -> bool) {
    forall i, j :: 0 <= i < j < |s| ==> !less(s[j], s[i])
  }

  function Place<T>(x: T, s: seq<T>, less: (T, T) -> bool): seq<T> {
    if s == [] || !less(s[0], x) then [x] + s else [s[0]] + Place(x, s[1..], less)
  }

  lemma {:induction false} PlacePermutes<T>(x: T, s: seq<T>, less: (T, T) -> bool)
    ensures multiset(Place(x, s, less)) == multiset(s) + multiset{x}
  {
    if !(s == [] || !less(s[0], x)) {
      PlacePermutes(x, s[1..], less);
      assert s == [s[0]] + s[1..];
    }
  }

  lemma {:induction false} PlaceOrders<T(!new)>(x: T, s: seq<T>, less: (T, T) -> bool)
    requires IsOrder(less) && Ordered(s, less)
    ensures Ordered(Place(x, s, less), less)
  {
    if s == [] || !less(s[0], x) {
      var r := [x] + s;
      forall j | 0 < j < |r| ensures !less(r[j], x) {
        assert j > 1 ==> !less(s[j - 1], s[0]);
      }
    } else {
      var rest := Place(x, s[1..], less);
      PlaceOrders(x, s[1..], less);
      PlacePermutes(x, s[1..], less);
      forall y | y in rest ensures !less(y, s[0]) {
        assert y in multiset(rest);
        assert y == x || y in s[1..];
      }
    }
  }

  method Sort<T(!new)>(s: seq<T>, less: (T, T) -> bool) returns (r: seq<T>)
    ensures |r| == |s| && multiset(r) == multiset(s)
    ensures IsOrder(less) ==> Ordered(r, less)
  {
    r := [];
    for i := 0 to |s|
      invariant multiset(r) == multiset(s[..i])
      invariant IsOrder(less) ==> Ordered(r, less)
    {
      PlacePermutes(s[i], r, less);
      if IsOrder(less) {
        PlaceOrders(s[i], r, less);
      }
      assert s[..i + 1] == s[..i] + [s[i]];
      r := Place(s[i], r, less);
    }
    assert s[..|s|] == s;
    assert |multiset(r)| == |r| && |multiset(s)| == |s|;
  }
}
