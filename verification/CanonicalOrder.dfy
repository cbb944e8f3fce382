/** Listings that follow a fixed order without repetition, and the test by which the readers recognise them. */
module CanonicalOrder {

  function Filter<T>(items: seq<T>, p: T -> bool): seq<T> {
    if items == [] then [] else (if p(items[0]) then [items[0]] else []) + Filter(items[1..], p)
  }

  predicate InOrder<T>(items: seq<T>, rank: T -> nat) {
    forall i, j :: 0 <= i < j < |items| ==> rank(items[i]) < rank(items[j])
  }

  lemma {:induction false} FilterKeeps<T>(items: seq<T>, p: T -> bool, x: T)
    ensures x in Filter(items, p) <==> x in items && p(x)
  {
    if items != [] {
      FilterKeeps(items[1..], p, x);
      assert items == [items[0]] + items[1..];
    }
  }

  lemma {:induction false} FilterMeans<T>(items: seq<T>, p: T -> bool, rank: T -> nat)
    requires InOrder(items, rank)
    ensures InOrder(Filter(items, p), rank)
    ensures forall x :: x in Filter(items, p) <==> x in items && p(x)
  {
    if items != [] {
      var rest := Filter(items[1..], p);
      FilterMeans(items[1..], p, rank);
      forall k | 0 <= k < |rest| ensures rank(items[0]) < rank(rest[k]) {
        FilterKeeps(items[1..], p, rest[k]);
      }
    }
    forall x ensures x in Filter(items, p) <==> x in items && p(x) {
      FilterKeeps(items, p, x);
    }
  }

  lemma NoItems<T>(items: seq<T>)
    ensures items == [] <==> forall x :: x !in items
  {
    if items != [] {
      assert items[0] in items;
    }
  }

  lemma RankedTail<T>(items: seq<T>, rank: T -> nat)
    requires InOrder(items, rank) && items != []
    ensures forall x :: x in items[1..] <==> x in items && x != items[0]
  {
    assert items == [items[0]] + items[1..];
  }

  lemma {:induction false} InOrderIsUnique<T>(xs: seq<T>, ys: seq<T>, rank: T -> nat)
    requires InOrder(xs, rank) && InOrder(ys, rank) && forall x :: x in xs <==> x in ys
    ensures xs == ys
  {
    NoItems(xs);
    NoItems(ys);
    if xs != [] {
      assert xs[0] in ys && ys[0] in xs;
      RankedTail(xs, rank);
      RankedTail(ys, rank);
      InOrderIsUnique(xs[1..], ys[1..], rank);
    }
  }

  function Distinct<T(==)>(items: seq<T>): set<T> {
    set x | x in items
  }

  lemma {:induction false} InOrderIsDistinct<T>(items: seq<T>, rank: T -> nat)
    requires InOrder(items, rank)
    ensures |Distinct(items)| == |items|
  {
    if items != [] {
      RankedTail(items, rank);
      InOrderIsDistinct(items[1..], rank);
      assert items[0] in items;
      assert Distinct(items[1..]) == Distinct(items) - {items[0]};
    }
  }

  /** The readers' test: no repetition, and filtering what is allowed by membership gives the listing back. */
  predicate IsCanonical<T(==)>(items: seq<T>, allowed: seq<T>) {
    |Distinct(items)| == |items| && items == Filter(allowed, x => x in items)
  }

  /** It accepts exactly the listings that are in order. */
  lemma CanonicalMeansInOrder<T>(items: seq<T>, allowed: seq<T>, rank: T -> nat)
    requires InOrder(allowed, rank) && forall x :: x in items ==> x in allowed
    ensures IsCanonical(items, allowed) <==> InOrder(items, rank)
  {
    FilterMeans(allowed, x => x in items, rank);
    if InOrder(items, rank) {
      InOrderIsUnique(items, Filter(allowed, x => x in items), rank);
      InOrderIsDistinct(items, rank);
    }
  }
}
