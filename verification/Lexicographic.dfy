/** Strings in code-point order, and the one ascending listing of a finite set of strings. */
module Lexicographic {

  predicate Less(x: string, y: string) {
    y != "" && (x == "" || x[0] < y[0] || (x[0] == y[0] && Less(x[1..], y[1..])))
  }

  /** The strings agree up to k; there x ends, or has the smaller character. */
  predicate LessAt(x: string, y: string, k: int) {
    && 0 <= k <= |x| && k < |y| && (forall i :: 0 <= i < k ==> x[i] == y[i])
    && (k == |x| || x[k] < y[k])
  }

  /** One string comes before another where they first differ. */
  lemma {:induction false} LessMeans(x: string, y: string)
    ensures Less(x, y) <==> exists k :: LessAt(x, y, k)
  {
    if y == "" {
    } else if x == "" || x[0] < y[0] {
      assert LessAt(x, y, 0);
    } else if x[0] == y[0] {
      LessMeans(x[1..], y[1..]);
      if k :| LessAt(x[1..], y[1..], k) {
        assert LessAt(x, y, k + 1);
      }
      if k :| LessAt(x, y, k) {
        assert k > 0 && LessAt(x[1..], y[1..], k - 1);
      }
    }
  }

  lemma {:induction false} LessIsTotal(x: string, y: string)
    ensures !Less(x, x)
    ensures x == y || Less(x, y) || Less(y, x)
    ensures !(Less(x, y) && Less(y, x))
  {
    if x != "" {
      LessIsTotal(x[1..], if y == "" then x[1..] else y[1..]);
      if y != "" && x[0] == y[0] {
        assert x == [x[0]] + x[1..] && y == [y[0]] + y[1..];
      }
    }
  }

  lemma {:induction false} LessIsTransitive(x: string, y: string, z: string)
    requires Less(x, y) && Less(y, z)
    ensures Less(x, z)
  {
    if x != "" && x[0] == y[0] == z[0] {
      LessIsTransitive(x[1..], y[1..], z[1..]);
    }
  }

  predicate Ascending(xs: seq<string>) {
    forall i, j :: 0 <= i < j < |xs| ==> Less(xs[i], xs[j])
  }

  function Elements(xs: seq<string>): set<string> {
    set x | x in xs
  }

  function Insert(x: string, xs: seq<string>): seq<string> {
    if xs == [] then [x]
    else if x == xs[0] then xs
    else if Less(x, xs[0]) then [x] + xs
    else [xs[0]] + Insert(x, xs[1..])
  }

  /** Python's sorted(set(xs)). */
  function SortUnique(xs: seq<string>): seq<string> {
    if xs == [] then [] else Insert(xs[0], SortUnique(xs[1..]))
  }

  lemma {:induction false} AscendingCons(x: string, xs: seq<string>)
    requires Ascending(xs) && (xs != [] ==> Less(x, xs[0]))
    ensures Ascending([x] + xs)
  {
    forall j | 0 <= j < |xs| ensures Less(x, xs[j]) {
      if j > 0 {
        LessIsTransitive(x, xs[0], xs[j]);
      }
    }
  }

  lemma ElementsEmpty(xs: seq<string>)
    ensures Elements(xs) == {} <==> xs == []
  {
    if xs != [] {
      assert xs[0] in Elements(xs);
    }
  }

  lemma ElementsCons(x: string, xs: seq<string>)
    ensures Elements([x] + xs) == Elements(xs) + {x}
  {
  }

  lemma ElementsSnoc(xs: seq<string>, x: string)
    ensures Elements(xs + [x]) == Elements(xs) + {x}
  {
  }

  lemma {:induction false} InsertMeans(x: string, xs: seq<string>)
    requires Ascending(xs)
    ensures Ascending(Insert(x, xs))
    ensures Elements(Insert(x, xs)) == Elements(xs) + {x}
    ensures Insert(x, xs) != [] && (Insert(x, xs)[0] == x || (xs != [] && Insert(x, xs)[0] == xs[0]))
  {
    if xs != [] {
      LessIsTotal(x, xs[0]);
      if x == xs[0] {
      } else if Less(x, xs[0]) {
        AscendingCons(x, xs);
      } else {
        InsertMeans(x, xs[1..]);
        AscendingCons(xs[0], Insert(x, xs[1..]));
        ElementsCons(xs[0], Insert(x, xs[1..]));
        ElementsCons(xs[0], xs[1..]);
        assert xs == [xs[0]] + xs[1..];
      }
    }
  }

  lemma {:induction false} SortUniqueMeans(xs: seq<string>)
    ensures Ascending(SortUnique(xs)) && Elements(SortUnique(xs)) == Elements(xs)
  {
    if xs != [] {
      SortUniqueMeans(xs[1..]);
      InsertMeans(xs[0], SortUnique(xs[1..]));
      assert xs == [xs[0]] + xs[1..];
    }
  }

  /** A set of strings has at most one ascending listing. */
  lemma {:induction false} AscendingIsUnique(xs: seq<string>, ys: seq<string>)
    requires Ascending(xs) && Ascending(ys) && Elements(xs) == Elements(ys)
    ensures xs == ys
  {
    ElementsEmpty(xs);
    ElementsEmpty(ys);
    if xs != [] {
      assert xs[0] in Elements(ys);
      var i :| 0 <= i < |ys| && ys[i] == xs[0];
      assert ys[0] in Elements(xs);
      var j :| 0 <= j < |xs| && xs[j] == ys[0];
      LessIsTotal(xs[0], ys[0]);
      AscendingTail(xs);
      AscendingTail(ys);
      AscendingIsUnique(xs[1..], ys[1..]);
    }
  }

  lemma AscendingTail(xs: seq<string>)
    requires xs != [] && Ascending(xs)
    ensures Ascending(xs[1..]) && Elements(xs[1..]) == Elements(xs) - {xs[0]}
    ensures xs[0] !in xs[1..]
  {
    forall k | 0 <= k < |xs[1..]| ensures xs[1..][k] != xs[0] {
      LessIsTotal(xs[0], xs[k + 1]);
    }
    assert xs == [xs[0]] + xs[1..];
  }

  /** The validators compare a listing with sorted(set(listing)); that accepts exactly the ascending ones. */
  lemma SortUniqueFixedPoints(xs: seq<string>)
    ensures SortUnique(xs) == xs <==> Ascending(xs)
  {
    SortUniqueMeans(xs);
    if Ascending(xs) {
      AscendingIsUnique(SortUnique(xs), xs);
    }
  }

  lemma {:induction false} AscendingSize(xs: seq<string>)
    requires Ascending(xs)
    ensures |Elements(xs)| == |xs|
  {
    if xs != [] {
      AscendingTail(xs);
      AscendingSize(xs[1..]);
      assert xs[0] in Elements(xs);
    }
  }

  lemma AscendingInjective(xs: seq<string>, i: nat, j: nat)
    requires Ascending(xs) && i < |xs| && j < |xs| && xs[i] == xs[j]
    ensures i == j
  {
    LessIsTotal(xs[i], xs[j]);
  }

  /** Keeping a selection of the earlier elements keeps the order. */
  lemma AscendingSelection(xs: seq<string>, ys: seq<string>, last: string)
    requires Ascending(ys + [last]) && Ascending(xs) && Elements(xs) <= Elements(ys)
    ensures Ascending(xs) && Ascending(xs + [last])
  {
    forall k | 0 <= k < |xs| ensures Less(xs[k], last) {
      assert xs[k] in Elements(ys);
      var j :| 0 <= j < |ys| && ys[j] == xs[k];
      assert Less((ys + [last])[j], (ys + [last])[|ys|]);
    }
  }
}
