/** Python's sorted with a string key: ascending, nothing lost, and equal keys keep their order. */
module StableSort {
  import opened Lexicographic

  function Insert<T>(x: T, sorted: seq<T>, key: T -> string): seq<T> {
    if sorted != [] && Less(key(x), key(sorted[|sorted| - 1]))
    then Insert(x, sorted[..|sorted| - 1], key) + [sorted[|sorted| - 1]]
    else sorted + [x]
  }

  function SortBy<T>(xs: seq<T>, key: T -> string): seq<T> {
    if xs == [] then [] else Insert(xs[|xs| - 1], SortBy(xs[..|xs| - 1], key), key)
  }

  /** No element has a key less than that of an earlier one. */
  predicate InKeyOrder<T>(xs: seq<T>, key: T -> string) {
    forall i, j :: 0 <= i < j < |xs| ==> !Less(key(xs[j]), key(xs[i]))
  }

  function WithKey<T>(xs: seq<T>, key: T -> string, k: string): seq<T> {
    if xs == [] then []
    else
      var rest := WithKey(xs[..|xs| - 1], key, k);
      if key(xs[|xs| - 1]) == k then rest + [xs[|xs| - 1]] else rest
  }

  lemma NotLessChain(a: string, b: string, c: string)
    requires !Less(b, a) && !Less(c, b)
    ensures !Less(c, a)
  {
    LessIsTotal(b, c);
    if Less(c, a) && b != c {
      LessIsTransitive(b, c, a);
    }
  }

  lemma Append<T>(xs: seq<T>, x: T, key: T -> string)
    requires InKeyOrder(xs, key) && forall y :: y in xs ==> !Less(key(x), key(y))
    ensures InKeyOrder(xs + [x], key)
  {
    forall i | 0 <= i < |xs| ensures !Less(key(x), key(xs[i])) {
      assert xs[i] in xs;
    }
  }

  lemma {:induction false} InsertElements<T>(x: T, sorted: seq<T>, key: T -> string, y: T)
    ensures y in Insert(x, sorted, key) <==> y in sorted || y == x
  {
    if sorted != [] && Less(key(x), key(sorted[|sorted| - 1])) {
      InsertElements(x, sorted[..|sorted| - 1], key, y);
      assert sorted == sorted[..|sorted| - 1] + [sorted[|sorted| - 1]];
    }
  }

  lemma {:induction false} InsertInOrder<T>(x: T, sorted: seq<T>, key: T -> string)
    requires InKeyOrder(sorted, key)
    ensures InKeyOrder(Insert(x, sorted, key), key)
  {
    if sorted != [] {
      var n := |sorted| - 1;
      if Less(key(x), key(sorted[n])) {
        InsertInOrder(x, sorted[..n], key);
        LessIsTotal(key(x), key(sorted[n]));
        forall y | y in Insert(x, sorted[..n], key) ensures !Less(key(sorted[n]), key(y)) {
          InsertElements(x, sorted[..n], key, y);
        }
        Append(Insert(x, sorted[..n], key), sorted[n], key);
      } else {
        forall y | y in sorted ensures !Less(key(x), key(y)) {
          var k :| 0 <= k < |sorted| && sorted[k] == y;
          if k < n {
            NotLessChain(key(y), key(sorted[n]), key(x));
          }
        }
        Append(sorted, x, key);
      }
    }
  }

  lemma {:induction false} SortByInOrder<T>(xs: seq<T>, key: T -> string)
    ensures InKeyOrder(SortBy(xs, key), key)
  {
    if xs != [] {
      SortByInOrder(xs[..|xs| - 1], key);
      InsertInOrder(xs[|xs| - 1], SortBy(xs[..|xs| - 1], key), key);
    }
  }

  lemma {:induction false} InsertWithKey<T>(x: T, sorted: seq<T>, key: T -> string, k: string)
    requires InKeyOrder(sorted, key)
    ensures WithKey(Insert(x, sorted, key), key, k) ==
      if key(x) == k then WithKey(sorted, key, k) + [x] else WithKey(sorted, key, k)
  {
    if sorted != [] && Less(key(x), key(sorted[|sorted| - 1])) {
      var n := |sorted| - 1;
      var rest := Insert(x, sorted[..n], key);
      InsertWithKey(x, sorted[..n], key, k);
      assert (rest + [sorted[n]])[..|rest|] == rest;
      if key(sorted[n]) == k {
        LessIsTotal(key(x), key(sorted[n]));
      }
    } else {
      assert (sorted + [x])[..|sorted|] == sorted;
    }
  }

  /** Under every key the same elements as before, in the same order: a permutation, and a stable one. */
  lemma {:induction false} SortByKeepsGroups<T>(xs: seq<T>, key: T -> string, k: string)
    ensures WithKey(SortBy(xs, key), key, k) == WithKey(xs, key, k)
  {
    if xs != [] {
      var n := |xs| - 1;
      SortByKeepsGroups(xs[..n], key, k);
      SortByInOrder(xs[..n], key);
      InsertWithKey(xs[n], SortBy(xs[..n], key), key, k);
    }
  }

  lemma {:induction false} SortByElements<T>(xs: seq<T>, key: T -> string, y: T)
    ensures |SortBy(xs, key)| == |xs|
    ensures y in SortBy(xs, key) <==> y in xs
  {
    if xs != [] {
      var n := |xs| - 1;
      SortByElements(xs[..n], key, y);
      InsertElements(xs[n], SortBy(xs[..n], key), key, y);
      InsertSize(xs[n], SortBy(xs[..n], key), key);
      assert xs == xs[..n] + [xs[n]];
    }
  }

  lemma {:induction false} InsertSize<T>(x: T, sorted: seq<T>, key: T -> string)
    ensures |Insert(x, sorted, key)| == |sorted| + 1
  {
    if sorted != [] && Less(key(x), key(sorted[|sorted| - 1])) {
      InsertSize(x, sorted[..|sorted| - 1], key);
    }
  }
}
