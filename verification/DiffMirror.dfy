/** Exchanging the differ's inputs: exactly when the rows are the same rows seen from the other side. */
module DiffMirror {
  import opened LineText
  import opened Alignments
  import opened LineDiff
  import opened FormatDiff

  function MirrorRow(row: Row): Row {
    match row
    case Context(n, m, text) => Context(m, n, text)
    case Removed(n, text) => Added(n, text)
    case Added(n, text) => Removed(n, text)
  }

  /** The rows seen from the other side: additions are removals, and the two numberings change places. */
  function Mirror(rows: seq<Row>): seq<Row> {
    if rows == [] then [] else [MirrorRow(rows[0])] + Mirror(rows[1..])
  }

  lemma {:induction false} MirrorIsPointwise(rows: seq<Row>)
    ensures |Mirror(rows)| == |rows|
    ensures forall k :: 0 <= k < |rows| ==> Mirror(rows)[k] == MirrorRow(rows[k])
  {
    if rows != [] {
      MirrorIsPointwise(rows[1..]);
    }
  }

  lemma {:induction false} MirrorConcat(x: seq<Row>, y: seq<Row>)
    ensures Mirror(x + y) == Mirror(x) + Mirror(y)
  {
    MirrorIsPointwise(x);
    MirrorIsPointwise(y);
    MirrorIsPointwise(x + y);
    assert forall k :: 0 <= k < |x| ==> (x + y)[k] == x[k];
    assert forall k :: 0 <= k < |y| ==> (x + y)[|x| + k] == y[k];
  }

  /** The mirror of a rewriting rewrites the other way, and keeps as many lines. */
  lemma {:induction false} MirrorRewrites(rows: seq<Row>)
    ensures BeforeSide(Mirror(rows)) == AfterSide(rows) && AfterSide(Mirror(rows)) == BeforeSide(rows)
    ensures Contexts(Mirror(rows)) == Contexts(rows) && Mirror(Mirror(rows)) == rows
  {
    if rows != [] {
      MirrorRewrites(rows[1..]);
      assert Mirror(rows)[1..] == Mirror(rows[1..]);
    }
  }

  // ----- The walk through the table -----

  /**
   The walk from (i, j) comes to unequal lines where dropping either one keeps as many lines. It is
   decided by the table alone.
   */
  predicate MeetsTie(a: seq<string>, b: seq<string>, i: nat, j: nat)
    requires i <= |a| && j <= |b|
    decreases |a| - i + |b| - j
  {
    if i == |a| || j == |b| then false
    else if a[i] == b[j] then MeetsTie(a, b, i + 1, j + 1)
    else if Lcs(a, b, i, j + 1) > Lcs(a, b, i + 1, j) then MeetsTie(a, b, i, j + 1)
    else Lcs(a, b, i, j + 1) == Lcs(a, b, i + 1, j) || MeetsTie(a, b, i + 1, j)
  }

  lemma MirrorStep(x: Row, rest: seq<Row>, y: Row, rest': seq<Row>)
    ensures Mirror([x] + rest) == [y] + rest' <==> MirrorRow(x) == y && Mirror(rest) == rest'
  {
    assert ([x] + rest)[1..] == rest;
    if Mirror([x] + rest) == [y] + rest' {
      assert ([MirrorRow(x)] + Mirror(rest))[0] == ([y] + rest')[0];
      assert ([MirrorRow(x)] + Mirror(rest))[1..] == ([y] + rest')[1..];
    }
  }

  /** Walking with the texts exchanged gives the mirrored rows exactly when the walk meets no tie. */
  lemma {:induction false} TraceMirrorsIff(a: seq<string>, b: seq<string>, i: nat, j: nat)
    requires i <= |a| && j <= |b|
    ensures Mirror(Trace(b, a, j, i)) == Trace(a, b, i, j) <==> !MeetsTie(a, b, i, j)
    decreases |a| - i + |b| - j
  {
    if i == |a| && j == |b| {
    } else if i < |a| && j < |b| && a[i] == b[j] {
      TraceMirrorsIff(a, b, i + 1, j + 1);
      MirrorStep(Context(j + 1, i + 1, b[j]), Trace(b, a, j + 1, i + 1),
                 Context(i + 1, j + 1, a[i]), Trace(a, b, i + 1, j + 1));
    } else {
      if i < |a| && j < |b| {
        LcsSymmetric(a, b, i + 1, j);
        LcsSymmetric(a, b, i, j + 1);
      }
      if j < |b| && (i == |a| || Lcs(a, b, i, j + 1) > Lcs(a, b, i + 1, j)) {
        TraceMirrorsIff(a, b, i, j + 1);
        MirrorStep(Removed(j + 1, b[j]), Trace(b, a, j + 1, i), Added(j + 1, b[j]), Trace(a, b, i, j + 1));
      } else if j == |b| || Lcs(a, b, i, j + 1) < Lcs(a, b, i + 1, j) {
        TraceMirrorsIff(a, b, i + 1, j);
        MirrorStep(Added(i + 1, a[i]), Trace(b, a, j, i + 1), Removed(i + 1, a[i]), Trace(a, b, i + 1, j));
      } else {
        MirrorStep(Removed(j + 1, b[j]), Trace(b, a, j + 1, i), Removed(i + 1, a[i]), Trace(a, b, i + 1, j));
      }
    }
  }

  /** Rows that keep a pair of equal lines whenever they come to one. */
  predicate IsEager(rows: seq<Row>, a: seq<string>, b: seq<string>, i: nat, j: nat)
    decreases |rows|
  {
    rows != [] && i < |a| && j < |b| ==>
      match rows[0]
      case Context(_, _, _) => IsEager(rows[1..], a, b, i + 1, j + 1)
      case Removed(_, _) => a[i] != b[j] && IsEager(rows[1..], a, b, i + 1, j)
      case Added(_, _) => a[i] != b[j] && IsEager(rows[1..], a, b, i, j + 1)
  }

  /** A best way to rewrite a[i..] into b[j..] that keeps equal lines at once. */
  predicate IsBestEager(rows: seq<Row>, a: seq<string>, b: seq<string>, i: nat, j: nat)
    requires i <= |a| && j <= |b|
  {
    Rewrites(rows, a, b, i, j) && Contexts(rows) == Lcs(a, b, i, j) && IsEager(rows, a, b, i, j)
  }

  lemma {:induction false} TraceIsEager(a: seq<string>, b: seq<string>, i: nat, j: nat)
    requires i <= |a| && j <= |b|
    ensures IsEager(Trace(a, b, i, j), a, b, i, j)
    ensures IsEager(Mirror(Trace(b, a, j, i)), a, b, i, j)
    decreases |a| - i + |b| - j
  {
    if i < |a| && j < |b| {
      if a[i] == b[j] {
        TraceIsEager(a, b, i + 1, j + 1);
      } else {
        TraceIsEager(a, b, i, j + 1);
        TraceIsEager(a, b, i + 1, j);
      }
    }
  }

  lemma {:induction false} OnlyBestEager(rows: seq<Row>, a: seq<string>, b: seq<string>, i: nat, j: nat)
    requires i <= |a| && j <= |b| && IsBestEager(rows, a, b, i, j) && !MeetsTie(a, b, i, j)
    ensures rows == Trace(a, b, i, j)
    decreases |rows|
  {
    FirstMove(rows, a, b, i, j);
    if rows != [] {
      match rows[0]
      case Context(_, _, _) => OnlyBestEager(rows[1..], a, b, i + 1, j + 1);
      case Removed(_, _) =>
        ContextBound(rows[1..], a, b, i + 1, j);
        LcsBounds(a, b, i, j);
        OnlyBestEager(rows[1..], a, b, i + 1, j);
      case Added(_, _) =>
        ContextBound(rows[1..], a, b, i, j + 1);
        LcsBounds(a, b, i, j);
        OnlyBestEager(rows[1..], a, b, i, j + 1);
    }
  }

  lemma OtherWalkIsBestEager(a: seq<string>, b: seq<string>)
    ensures IsBestEager(Mirror(Trace(b, a, 0, 0)), a, b, 0, 0)
  {
    TraceRewrites(b, a, 0, 0);
    MirrorRewrites(Trace(b, a, 0, 0));
    LcsSymmetric(a, b, 0, 0);
    TraceIsEager(a, b, 0, 0);
  }

  /** No tie is met exactly when the walk's rows are the only best ones that keep equal lines at once. */
  lemma NoTieMeansOneBest(a: seq<string>, b: seq<string>)
    ensures IsBestEager(Trace(a, b, 0, 0), a, b, 0, 0)
    ensures !MeetsTie(a, b, 0, 0) <==> forall rows :: IsBestEager(rows, a, b, 0, 0) ==> rows == Trace(a, b, 0, 0)
  {
    TraceRewrites(a, b, 0, 0);
    TraceIsEager(a, b, 0, 0);
    OtherWalkIsBestEager(a, b);
    TraceMirrorsIff(a, b, 0, 0);
    if !MeetsTie(a, b, 0, 0) {
      forall rows | IsBestEager(rows, a, b, 0, 0) ensures rows == Trace(a, b, 0, 0) {
        OnlyBestEager(rows, a, b, 0, 0);
      }
    }
  }

  // ----- The prefix/suffix approximation -----

  lemma {:induction false} MirrorContexts(a: seq<string>, b: seq<string>, from: nat, to: nat, shift: int)
    requires from <= to <= |a| && 0 <= from + shift && to + shift <= |b|
    requires a[from..to] == b[from + shift..to + shift]
    ensures Mirror(ContextRows(b, from + shift, to + shift, -shift)) == ContextRows(a, from, to, shift)
    ensures |ContextRows(a, from, to, shift)| == to - from
    decreases |a| - from
  {
    if from < to {
      assert a[from] == a[from..to][0] == b[from + shift..to + shift][0] == b[from + shift];
      assert a[from + 1..to] == a[from..to][1..] == b[from + shift..to + shift][1..] == b[from + 1 + shift..to + shift];
      MirrorContexts(a, b, from + 1, to, shift);
      MirrorStep(Context(from + shift + 1, from + 1, b[from + shift]),
                 ContextRows(b, from + shift + 1, to + shift, -shift),
                 Context(from + 1, from + shift + 1, a[from]), ContextRows(a, from + 1, to, shift));
    }
  }

  lemma {:induction false} MirrorLines(a: seq<string>, from: nat, to: nat)
    requires from <= to <= |a|
    ensures Mirror(RemovedLines(a, from, to)) == AddedLines(a, from, to)
    ensures Mirror(AddedLines(a, from, to)) == RemovedLines(a, from, to)
    decreases |a| - from
  {
    if from < to {
      MirrorLines(a, from + 1, to);
      MirrorStep(Removed(from + 1, a[from]), RemovedLines(a, from + 1, to),
                 Added(from + 1, a[from]), AddedLines(a, from + 1, to));
      MirrorStep(Added(from + 1, a[from]), AddedLines(a, from + 1, to),
                 Removed(from + 1, a[from]), RemovedLines(a, from + 1, to));
    }
  }

  lemma MirrorParts(w: seq<Row>, x: seq<Row>, y: seq<Row>, z: seq<Row>)
    ensures Mirror(w + (x + (y + z))) == Mirror(w) + (Mirror(x) + (Mirror(y) + Mirror(z)))
  {
    MirrorConcat(w, x + (y + z));
    MirrorConcat(x, y + z);
    MirrorConcat(y, z);
  }

  /** Two blocks of different kinds commute exactly when one of them is empty. */
  lemma BlocksCommute(w: seq<Row>, x: seq<Row>, y: seq<Row>, z: seq<Row>)
    requires x != [] && y != [] ==> x[0] != y[0]
    ensures w + (x + (y + z)) == w + (y + (x + z)) <==> x == [] || y == []
  {
    if x != [] && y != [] {
      assert (w + (x + (y + z)))[|w|] == x[0] && (w + (y + (x + z)))[|w|] == y[0];
    } else if x == [] {
      assert x + (y + z) == y + z && x + z == z;
    } else {
      assert y + (x + z) == x + z && y + z == z;
    }
  }

  lemma MirrorEnds(a: seq<string>, b: seq<string>, p: nat, s: nat)
    requires p + s <= |a| && p + s <= |b| && a[..p] == b[..p] && a[|a| - s..] == b[|b| - s..]
    ensures Mirror(ContextRows(b, 0, p, 0)) == ContextRows(a, 0, p, 0)
    ensures Mirror(ContextRows(b, |b| - s, |b|, |a| - |b|)) == ContextRows(a, |a| - s, |a|, |b| - |a|)
  {
    MirrorContexts(a, b, 0, p, 0);
    MirrorContexts(a, b, |a| - s, |a|, |b| - |a|);
  }

  lemma MirrorSplit(a: seq<string>, b: seq<string>, p: nat, s: nat, w: seq<Row>, z: seq<Row>)
    requires p + s <= |a| && p + s <= |b|
    requires w == Mirror(ContextRows(b, 0, p, 0)) && z == Mirror(ContextRows(b, |b| - s, |b|, |a| - |b|))
    ensures Mirror(ReplacementWith(b, a, p, s)) ==
      w + (AddedLines(b, p, |b| - s) + (RemovedLines(a, p, |a| - s) + z))
  {
    MirrorParts(ContextRows(b, 0, p, 0), RemovedLines(b, p, |b| - s), AddedLines(a, p, |a| - s),
                ContextRows(b, |b| - s, |b|, |a| - |b|));
    MirrorLines(b, p, |b| - s);
    MirrorLines(a, p, |a| - s);
  }

  lemma ReplacementCommutes(a: seq<string>, b: seq<string>, p: nat, s: nat)
    requires p + s <= |a| && p + s <= |b| && a[..p] == b[..p] && a[|a| - s..] == b[|b| - s..]
    ensures Mirror(ReplacementWith(b, a, p, s)) == ReplacementWith(a, b, p, s) <==> p + s == |a| || p + s == |b|
  {
    var w, z := ContextRows(a, 0, p, 0), ContextRows(a, |a| - s, |a|, |b| - |a|);
    var x, y := RemovedLines(a, p, |a| - s), AddedLines(b, p, |b| - s);
    MirrorEnds(a, b, p, s);
    MirrorSplit(a, b, p, s, w, z);
    assert x == [] <==> p + s == |a|;
    assert y == [] <==> p + s == |b|;
    BlocksCommute(w, x, y, z);
  }

  /** The approximation's rows mirror exactly when one of the middles is empty. */
  lemma ReplacementMirrorsIff(a: seq<string>, b: seq<string>)
    ensures Mirror(Replacement(b, a)) == Replacement(a, b) <==> Middles(a, b).0 == [] || Middles(a, b).1 == []
  {
    EndsMaximal(a, b);
    EndsAgree(a, b);
    ReplacementCommutes(a, b, Ends(a, b).0, Ends(a, b).1);
  }

  // ----- The differ -----

  /** The walk meets no tie or, above the cell limit, one of the middles is empty. */
  predicate RowsMirror(before: string, after: string) {
    var a, b := Lines(before), Lines(after);
    if TooLarge(before, after) then Middles(a, b).0 == [] || Middles(a, b).1 == [] else !MeetsTie(a, b, 0, 0)
  }

  /** Exchanging the texts mirrors the rows exactly then. The counts are exchanged in any case. */
  lemma SwapMirrorsRowsIff(before: string, after: string)
    ensures Mirror(DiffOf(after, before).rows) == DiffOf(before, after).rows <==> RowsMirror(before, after)
  {
    var a, b := Lines(before), Lines(after);
    SwapCounts(before, after);
    ReplacementMirrorsIff(a, b);
    TraceMirrorsIff(a, b, 0, 0);
  }
}
