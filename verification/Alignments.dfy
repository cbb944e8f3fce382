/**
 Longest common subsequences, defined by what they are: an alignment of two sequences pairs equal
 elements, strictly forwards in both. The recurrence that the differ tabulates is proved to give
 the size of a largest alignment.
 */
module Alignments {

  /** pairs aligns a[i..] with b[j..]; the indices are those of the whole sequences. */
  ghost predicate Alignment<T>(a: seq<T>, b: seq<T>, i: nat, j: nat, pairs: seq<(nat, nat)>) {
    && (forall k :: 0 <= k < |pairs| ==>
      i <= pairs[k].0 < |a| && j <= pairs[k].1 < |b| && a[pairs[k].0] == b[pairs[k].1])
    && (forall k, l :: 0 <= k < l < |pairs| ==> pairs[k].0 < pairs[l].0 && pairs[k].1 < pairs[l].1)
  }

  /** n is the size of a largest alignment of a[i..] with b[j..]. */
  ghost predicate IsLongest<T>(a: seq<T>, b: seq<T>, i: nat, j: nat, n: nat) {
    && (exists pairs :: Alignment(a, b, i, j, pairs) && |pairs| == n)
    && (forall pairs :: Alignment(a, b, i, j, pairs) ==> |pairs| <= n)
  }

  function Max(x: nat, y: nat): nat {
    if x < y then y else x
  }

  function Lcs<T(==)>(a: seq<T>, b: seq<T>, i: nat, j: nat): nat
    requires i <= |a| && j <= |b|
    decreases |a| - i + |b| - j
  {
    if i == |a| || j == |b| then 0
    else if a[i] == b[j] then Lcs(a, b, i + 1, j + 1) + 1
    else Max(Lcs(a, b, i + 1, j), Lcs(a, b, i, j + 1))
  }

  lemma {:induction false} LcsBounds<T>(a: seq<T>, b: seq<T>, i: nat, j: nat)
    requires i <= |a| && j <= |b|
    ensures Lcs(a, b, i, j) <= |a| - i && Lcs(a, b, i, j) <= |b| - j
    ensures i < |a| ==> Lcs(a, b, i + 1, j) <= Lcs(a, b, i, j) <= Lcs(a, b, i + 1, j) + 1
    ensures j < |b| ==> Lcs(a, b, i, j + 1) <= Lcs(a, b, i, j) <= Lcs(a, b, i, j + 1) + 1
    decreases |a| - i + |b| - j
  {
    if i < |a| && j < |b| {
      LcsBounds(a, b, i + 1, j + 1);
      LcsBounds(a, b, i + 1, j);
      LcsBounds(a, b, i, j + 1);
    }
  }

  lemma {:induction false} AlignmentBound<T>(a: seq<T>, b: seq<T>, i: nat, j: nat, pairs: seq<(nat, nat)>)
    requires i <= |a| && j <= |b|
    requires Alignment(a, b, i, j, pairs)
    ensures |pairs| <= Lcs(a, b, i, j)
    decreases |a| - i + |b| - j
  {
    if |pairs| > 0 {
      assert i <= pairs[0].0 < |a| && j <= pairs[0].1 < |b|;
      LcsBounds(a, b, i, j);
      if a[i] == b[j] {
        AlignmentBound(a, b, i + 1, j + 1, pairs[1..]);
      } else if pairs[0].0 > i {
        AlignmentBound(a, b, i + 1, j, pairs);
      } else {
        AlignmentBound(a, b, i, j + 1, pairs);
      }
    }
  }

  lemma {:induction false} LongestAlignment<T>(a: seq<T>, b: seq<T>, i: nat, j: nat) returns (pairs: seq<(nat, nat)>)
    requires i <= |a| && j <= |b|
    ensures Alignment(a, b, i, j, pairs) && |pairs| == Lcs(a, b, i, j)
    decreases |a| - i + |b| - j
  {
    if i == |a| || j == |b| {
      pairs := [];
    } else if a[i] == b[j] {
      var rest := LongestAlignment(a, b, i + 1, j + 1);
      pairs := [(i, j)] + rest;
    } else if Lcs(a, b, i + 1, j) > Lcs(a, b, i, j + 1) {
      pairs := LongestAlignment(a, b, i + 1, j);
    } else {
      pairs := LongestAlignment(a, b, i, j + 1);
    }
  }

  /** The recurrence is the optimum, and the only one. */
  lemma LcsIsLongest<T>(a: seq<T>, b: seq<T>, i: nat, j: nat, n: nat)
    requires i <= |a| && j <= |b|
    ensures IsLongest(a, b, i, j, n) <==> n == Lcs(a, b, i, j)
  {
    var best := LongestAlignment(a, b, i, j);
    forall pairs | Alignment(a, b, i, j, pairs) ensures |pairs| <= Lcs(a, b, i, j) {
      AlignmentBound(a, b, i, j, pairs);
    }
  }

  lemma {:induction false} LcsSymmetric<T>(a: seq<T>, b: seq<T>, i: nat, j: nat)
    requires i <= |a| && j <= |b|
    ensures Lcs(a, b, i, j) == Lcs(b, a, j, i)
    decreases |a| - i + |b| - j
  {
    if i < |a| && j < |b| {
      LcsSymmetric(a, b, i + 1, j + 1);
      LcsSymmetric(a, b, i + 1, j);
      LcsSymmetric(a, b, i, j + 1);
    }
  }

  /** A cell of the table speaks about the two suffixes alone. */
  lemma {:induction false} LcsOfSuffixes<T>(a: seq<T>, b: seq<T>, p: nat, q: nat, i: nat, j: nat)
    requires p + i <= |a| && q + j <= |b|
    ensures Lcs(a, b, p + i, q + j) == Lcs(a[p..], b[q..], i, j)
    decreases |a| - p - i + |b| - q - j
  {
    if p + i < |a| && q + j < |b| {
      LcsOfSuffixes(a, b, p, q, i + 1, j + 1);
      LcsOfSuffixes(a, b, p, q, i + 1, j);
      LcsOfSuffixes(a, b, p, q, i, j + 1);
    }
  }

  lemma {:induction false} TrimPrefix<T>(a: seq<T>, b: seq<T>, p: nat)
    requires p <= |a| && p <= |b| && a[..p] == b[..p]
    ensures Lcs(a, b, 0, 0) == p + Lcs(a[p..], b[p..], 0, 0)
  {
    if p == 0 {
      assert a[0..] == a && b[0..] == b;
    } else {
      assert a[0] == a[..p][0] == b[..p][0] == b[0];
      assert a[1..][..p - 1] == a[..p][1..] == b[..p][1..] == b[1..][..p - 1];
      LcsOfSuffixes(a, b, 1, 1, 0, 0);
      TrimPrefix(a[1..], b[1..], p - 1);
      assert a[1..][p - 1..] == a[p..] && b[1..][p - 1..] == b[p..];
    }
  }

  lemma ExtendAlignment<T>(a: seq<T>, b: seq<T>, pairs: seq<(nat, nat)>)
    requires |a| > 0 && |b| > 0 && a[|a| - 1] == b[|b| - 1]
    requires Alignment(a[..|a| - 1], b[..|b| - 1], 0, 0, pairs)
    ensures Alignment(a, b, 0, 0, pairs + [(|a| - 1, |b| - 1)])
  {
  }

  lemma ShortenAlignment<T>(a: seq<T>, b: seq<T>, pairs: seq<(nat, nat)>)
    requires |a| > 0 && |b| > 0 && |pairs| > 0
    requires Alignment(a, b, 0, 0, pairs)
    ensures Alignment(a[..|a| - 1], b[..|b| - 1], 0, 0, pairs[..|pairs| - 1])
  {
    var last := |pairs| - 1;
    forall k | 0 <= k < last ensures pairs[k].0 < |a| - 1 && pairs[k].1 < |b| - 1 {
      assert pairs[k].0 < pairs[last].0 && pairs[k].1 < pairs[last].1;
    }
  }

  lemma TrimLast<T>(a: seq<T>, b: seq<T>)
    requires |a| > 0 && |b| > 0 && a[|a| - 1] == b[|b| - 1]
    ensures Lcs(a, b, 0, 0) == 1 + Lcs(a[..|a| - 1], b[..|b| - 1], 0, 0)
  {
    var a', b' := a[..|a| - 1], b[..|b| - 1];
    var inner := LongestAlignment(a', b', 0, 0);
    ExtendAlignment(a, b, inner);
    AlignmentBound(a, b, 0, 0, inner + [(|a| - 1, |b| - 1)]);
    var outer := LongestAlignment(a, b, 0, 0);
    if |outer| > 0 {
      ShortenAlignment(a, b, outer);
      AlignmentBound(a', b', 0, 0, outer[..|outer| - 1]);
    }
  }

  lemma {:induction false} TrimSuffix<T>(a: seq<T>, b: seq<T>, s: nat)
    requires s <= |a| && s <= |b| && a[|a| - s..] == b[|b| - s..]
    ensures Lcs(a, b, 0, 0) == Lcs(a[..|a| - s], b[..|b| - s], 0, 0) + s
  {
    if s == 0 {
      assert a[..|a|] == a && b[..|b|] == b;
    } else {
      var a', b' := a[..|a| - 1], b[..|b| - 1];
      assert a[|a| - 1] == a[|a| - s..][s - 1] == b[|b| - s..][s - 1] == b[|b| - 1];
      TrimLast(a, b);
      assert a'[|a'| - (s - 1)..] == a[|a| - s..][..s - 1] == b[|b| - s..][..s - 1] == b'[|b'| - (s - 1)..];
      TrimSuffix(a', b', s - 1);
      assert a'[..|a'| - (s - 1)] == a[..|a| - s] && b'[..|b'| - (s - 1)] == b[..|b| - s];
    }
  }

  /** Nothing can be aligned exactly when no element occurs in both sequences. */
  lemma LcsZero<T>(a: seq<T>, b: seq<T>)
    ensures Lcs(a, b, 0, 0) == 0 <==> (forall x :: x in a ==> x !in b)
  {
    var best := LongestAlignment(a, b, 0, 0);
    if |best| > 0 {
      assert a[best[0].0] in a && a[best[0].0] in b;
    }
    if x :| x in a && x in b {
      var i :| 0 <= i < |a| && a[i] == x;
      var j :| 0 <= j < |b| && b[j] == x;
      AlignmentBound(a, b, 0, 0, [(i, j)]);
    }
  }

  /** Everything can be aligned exactly when the sequences are equal. */
  lemma {:induction false} LcsFull<T>(a: seq<T>, b: seq<T>)
    ensures Lcs(a, b, 0, 0) == |a| == |b| <==> a == b
  {
    if |a| == |b| {
      if a == b {
        assert a[..|a|] == b[..|b|];
        TrimPrefix(a, b, |a|);
      } else if Lcs(a, b, 0, 0) == |a| {
        var i :| 0 <= i < |a| && a[i] != b[i];
        LcsDiagonal(a, b, i);
        LcsBounds(a, b, i, i);
        LcsBounds(a, b, i + 1, i);
        LcsBounds(a, b, i, i + 1);
      }
    }
  }

  lemma {:induction false} LcsDiagonal<T>(a: seq<T>, b: seq<T>, i: nat)
    requires i <= |a| == |b|
    requires Lcs(a, b, 0, 0) == |a|
    ensures Lcs(a, b, i, i) == |a| - i
  {
    if i > 0 {
      LcsDiagonal(a, b, i - 1);
      LcsBounds(a, b, i, i);
      LcsBounds(a, b, i - 1, i);
      LcsBounds(a, b, i, i - 1);
    }
  }
}
