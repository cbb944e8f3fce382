/**
 The line differ: a suffix table of common-subsequence lengths, a walk through it that emits rows,
 and a prefix/suffix approximation for inputs whose table would be too large.
 */
module LineDiff {
  import opened Alignments

  newtype uint32 = x: int | 0 <= x < 0x1_0000_0000

  const MAX_ALIGNMENT_CELLS := 1_000_000

  datatype Row =
    | Context(beforeNumber: nat, afterNumber: nat, text: string)
    | Removed(beforeNumber: nat, text: string)
    | Added(afterNumber: nat, text: string)

  // ----- What rows mean -----

  /** The numbered lines of the old text that the rows show: everything but the added rows. */
  function BeforeSide(rows: seq<Row>): seq<(nat, string)> {
    if rows == [] then []
    else match rows[0]
      case Context(n, _, text) => [(n, text)] + BeforeSide(rows[1..])
      case Removed(n, text) => [(n, text)] + BeforeSide(rows[1..])
      case Added(_, _) => BeforeSide(rows[1..])
  }

  function AfterSide(rows: seq<Row>): seq<(nat, string)> {
    if rows == [] then []
    else match rows[0]
      case Context(_, n, text) => [(n, text)] + AfterSide(rows[1..])
      case Added(n, text) => [(n, text)] + AfterSide(rows[1..])
      case Removed(_, _) => AfterSide(rows[1..])
  }

  function Numbered(lines: seq<string>): seq<(nat, string)> {
    seq(|lines|, k requires 0 <= k < |lines| => (k + 1, lines[k]))
  }

  /** Rows that rewrite a[i..] into b[j..], every line under its own number. */
  predicate Rewrites(rows: seq<Row>, a: seq<string>, b: seq<string>, i: nat, j: nat)
    requires i <= |a| && j <= |b|
  {
    BeforeSide(rows) == Numbered(a)[i..] && AfterSide(rows) == Numbered(b)[j..]
  }

  function Contexts(rows: seq<Row>): nat {
    if rows == [] then 0 else (if rows[0].Context? then 1 else 0) + Contexts(rows[1..])
  }

  function AddedRows(rows: seq<Row>): nat {
    if rows == [] then 0 else (if rows[0].Added? then 1 else 0) + AddedRows(rows[1..])
  }

  function RemovedRows(rows: seq<Row>): nat {
    if rows == [] then 0 else (if rows[0].Removed? then 1 else 0) + RemovedRows(rows[1..])
  }

  /** In row order at the first difference: context before removed before added. */
  function Rank(row: Row): nat {
    match row
    case Context(_, _, _) => 0
    case Removed(_, _) => 1
    case Added(_, _) => 2
  }

  predicate NoLaterThan(x: seq<Row>, y: seq<Row>) {
    if x == [] || y == [] then x == y
    else Rank(x[0]) < Rank(y[0]) || (x[0] == y[0] && NoLaterThan(x[1..], y[1..]))
  }

  lemma {:induction false} RowCounts(rows: seq<Row>)
    ensures |BeforeSide(rows)| == Contexts(rows) + RemovedRows(rows)
    ensures |AfterSide(rows)| == Contexts(rows) + AddedRows(rows)
    ensures |rows| == Contexts(rows) + RemovedRows(rows) + AddedRows(rows)
  {
    if rows != [] {
      RowCounts(rows[1..]);
    }
  }

  /** The first row of a rewriting is one of the three moves that the position allows. */
  lemma FirstMove(rows: seq<Row>, a: seq<string>, b: seq<string>, i: nat, j: nat)
    requires i <= |a| && j <= |b| && Rewrites(rows, a, b, i, j)
    ensures rows == [] <==> i == |a| && j == |b|
    ensures rows != [] ==> match rows[0]
      case Context(_, _, _) => i < |a| && j < |b| && a[i] == b[j] && rows[0] == Context(i + 1, j + 1, a[i])
                               && Rewrites(rows[1..], a, b, i + 1, j + 1)
      case Removed(_, _) => i < |a| && rows[0] == Removed(i + 1, a[i]) && Rewrites(rows[1..], a, b, i + 1, j)
      case Added(_, _) => j < |b| && rows[0] == Added(j + 1, b[j]) && Rewrites(rows[1..], a, b, i, j + 1)
  {
    var before, after := Numbered(a)[i..], Numbered(b)[j..];
    if rows != [] {
      if !rows[0].Added? {
        assert BeforeSide(rows)[0] == before[0] == Numbered(a)[i];
        assert BeforeSide(rows)[1..] == before[1..] == Numbered(a)[i + 1..];
      }
      if !rows[0].Removed? {
        assert AfterSide(rows)[0] == after[0] == Numbered(b)[j];
        assert AfterSide(rows)[1..] == after[1..] == Numbered(b)[j + 1..];
      }
    }
  }

  /** No rewriting keeps more lines than the longest common subsequence. */
  lemma {:induction false} ContextBound(rows: seq<Row>, a: seq<string>, b: seq<string>, i: nat, j: nat)
    requires i <= |a| && j <= |b| && Rewrites(rows, a, b, i, j)
    ensures Contexts(rows) <= Lcs(a, b, i, j)
    decreases |rows|
  {
    FirstMove(rows, a, b, i, j);
    LcsBounds(a, b, i, j);
    if rows != [] {
      match rows[0]
      case Context(_, _, _) => ContextBound(rows[1..], a, b, i + 1, j + 1);
      case Removed(_, _) => ContextBound(rows[1..], a, b, i + 1, j);
      case Added(_, _) => ContextBound(rows[1..], a, b, i, j + 1);
    }
  }

  // ----- The walk through the table -----

  function Trace(a: seq<string>, b: seq<string>, i: nat, j: nat): seq<Row>
    requires i <= |a| && j <= |b|
    decreases |a| - i + |b| - j
  {
    if i == |a| && j == |b| then []
    else if i < |a| && j < |b| && a[i] == b[j] then
      [Context(i + 1, j + 1, a[i])] + Trace(a, b, i + 1, j + 1)
    else if j < |b| && (i == |a| || Lcs(a, b, i, j + 1) > Lcs(a, b, i + 1, j)) then
      [Added(j + 1, b[j])] + Trace(a, b, i, j + 1)
    else
      [Removed(i + 1, a[i])] + Trace(a, b, i + 1, j)
  }

  /** The converse of FirstMove. */
  lemma Prepend(row: Row, rows: seq<Row>, a: seq<string>, b: seq<string>, i: nat, j: nat)
    requires i <= |a| && j <= |b|
    requires match row
      case Context(_, _, _) => i < |a| && j < |b| && a[i] == b[j] && row == Context(i + 1, j + 1, a[i])
                               && Rewrites(rows, a, b, i + 1, j + 1)
      case Removed(_, _) => i < |a| && row == Removed(i + 1, a[i]) && Rewrites(rows, a, b, i + 1, j)
      case Added(_, _) => j < |b| && row == Added(j + 1, b[j]) && Rewrites(rows, a, b, i, j + 1)
    ensures Rewrites([row] + rows, a, b, i, j)
    ensures Contexts([row] + rows) == Contexts(rows) + if row.Context? then 1 else 0
  {
    assert ([row] + rows)[1..] == rows;
    if !row.Added? {
      assert Numbered(a)[i..] == [(i + 1, a[i])] + Numbered(a)[i + 1..];
    }
    if !row.Removed? {
      assert Numbered(b)[j..] == [(j + 1, b[j])] + Numbered(b)[j + 1..];
    }
  }

  lemma {:induction false} TraceRewrites(a: seq<string>, b: seq<string>, i: nat, j: nat)
    requires i <= |a| && j <= |b|
    ensures Rewrites(Trace(a, b, i, j), a, b, i, j)
    ensures Contexts(Trace(a, b, i, j)) == Lcs(a, b, i, j)
    decreases |a| - i + |b| - j
  {
    if i == |a| && j == |b| {
    } else if i < |a| && j < |b| && a[i] == b[j] {
      TraceRewrites(a, b, i + 1, j + 1);
      Prepend(Context(i + 1, j + 1, a[i]), Trace(a, b, i + 1, j + 1), a, b, i, j);
    } else if j < |b| && (i == |a| || Lcs(a, b, i, j + 1) > Lcs(a, b, i + 1, j)) {
      TraceRewrites(a, b, i, j + 1);
      Prepend(Added(j + 1, b[j]), Trace(a, b, i, j + 1), a, b, i, j);
    } else {
      TraceRewrites(a, b, i + 1, j);
      Prepend(Removed(i + 1, a[i]), Trace(a, b, i + 1, j), a, b, i, j);
    }
  }

  /** Of all rewritings that keep as many lines, the walk's is first in row order. */
  lemma {:induction false} TraceIsFirst(rows: seq<Row>, a: seq<string>, b: seq<string>, i: nat, j: nat)
    requires i <= |a| && j <= |b| && Rewrites(rows, a, b, i, j)
    requires Contexts(rows) == Lcs(a, b, i, j)
    ensures NoLaterThan(Trace(a, b, i, j), rows)
    decreases |rows|
  {
    FirstMove(rows, a, b, i, j);
    if rows != [] {
      match rows[0]
      case Context(_, _, _) => TraceIsFirst(rows[1..], a, b, i + 1, j + 1);
      case Removed(_, _) =>
        ContextBound(rows[1..], a, b, i + 1, j);
        LcsBounds(a, b, i, j);
        if j == |b| || a[i] != b[j] {
          TraceIsFirst(rows[1..], a, b, i + 1, j);
        }
      case Added(_, _) =>
        ContextBound(rows[1..], a, b, i, j + 1);
        LcsBounds(a, b, i, j);
        if i == |a| || (a[i] != b[j] && Lcs(a, b, i, j + 1) > Lcs(a, b, i + 1, j)) {
          TraceIsFirst(rows[1..], a, b, i, j + 1);
        }
    }
  }

  ghost predicate IsTable(matrix: array2<uint32>, a: seq<string>, b: seq<string>) {
    matrix.Length0 == |a| + 1 && matrix.Length1 == |b| + 1
  }

  ghost predicate RowFilled(matrix: array2<uint32>, a: seq<string>, b: seq<string>, i: nat, from: nat)
    requires IsTable(matrix, a, b) && i <= |a|
    reads matrix
  {
    forall j :: from <= j <= |b| ==> matrix[i, j] as int == Lcs(a, b, i, j)
  }

  method FillMatrix(a: seq<string>, b: seq<string>) returns (matrix: array2<uint32>)
    requires |a| * |b| <= MAX_ALIGNMENT_CELLS
    ensures fresh(matrix) && IsTable(matrix, a, b)
    ensures forall i :: 0 <= i <= |a| ==> RowFilled(matrix, a, b, i, 0)
  {
    matrix := new uint32[|a| + 1, |b| + 1]((_, _) => 0);
    for oldIndex := |a| downto 0
      invariant forall i :: oldIndex <= i <= |a| ==> RowFilled(matrix, a, b, i, 0)
      invariant forall i :: 0 <= i < oldIndex ==> matrix[i, |b|] == 0
    {
      assert RowFilled(matrix, a, b, oldIndex + 1, 0);
      label before:
      FillMatrixRow(a, b, matrix, oldIndex);
      forall i | oldIndex < i <= |a| ensures RowFilled(matrix, a, b, i, 0) {
        assert old@before(RowFilled(matrix, a, b, i, 0));
      }
    }
  }

  /** The inner loop: one row of the table, from the row below it. */
  method FillMatrixRow(a: seq<string>, b: seq<string>, matrix: array2<uint32>, oldIndex: nat)
    requires IsTable(matrix, a, b) && oldIndex < |a| && |a| * |b| <= MAX_ALIGNMENT_CELLS
    requires RowFilled(matrix, a, b, oldIndex + 1, 0) && matrix[oldIndex, |b|] == 0
    modifies matrix
    ensures RowFilled(matrix, a, b, oldIndex, 0)
    ensures forall i, j :: 0 <= i <= |a| && 0 <= j <= |b| && i != oldIndex ==> matrix[i, j] == old(matrix[i, j])
  {
    for newIndex := |b| downto 0
      invariant RowFilled(matrix, a, b, oldIndex, newIndex)
      invariant forall i, j :: 0 <= i <= |a| && 0 <= j <= |b| && i != oldIndex ==> matrix[i, j] == old(matrix[i, j])
    {
      CellFits(a, b, oldIndex + 1, newIndex + 1);
      assert matrix[oldIndex + 1, newIndex] as int == Lcs(a, b, oldIndex + 1, newIndex);
      assert matrix[oldIndex + 1, newIndex + 1] as int == Lcs(a, b, oldIndex + 1, newIndex + 1);
      matrix[oldIndex, newIndex] :=
        if a[oldIndex] == b[newIndex] then matrix[oldIndex + 1, newIndex + 1] + 1
        else if matrix[oldIndex + 1, newIndex] < matrix[oldIndex, newIndex + 1] then matrix[oldIndex, newIndex + 1]
        else matrix[oldIndex + 1, newIndex];
    }
  }

  /** Below the cell limit no cell of the typed array can wrap around. */
  lemma CellFits(a: seq<string>, b: seq<string>, i: nat, j: nat)
    requires i <= |a| && j <= |b| && |a| * |b| <= MAX_ALIGNMENT_CELLS
    ensures Lcs(a, b, i, j) <= MAX_ALIGNMENT_CELLS
  {
    LcsBounds(a, b, i, j);
    if |b| >= 1 {
      assert |a| <= |a| * |b|;
    }
  }

  lemma Regroup(shown: seq<Row>, rows: seq<Row>, rest: seq<Row>)
    requires |rows| == |shown| + 1 && rows[..|shown|] == shown
    ensures rows + rest == shown + ([rows[|shown|]] + rest)
  {
  }

  method WalkMatrix(a: seq<string>, b: seq<string>, matrix: array2<uint32>) returns (rows: seq<Row>)
    requires IsTable(matrix, a, b) && forall i :: 0 <= i <= |a| ==> RowFilled(matrix, a, b, i, 0)
    ensures rows == Trace(a, b, 0, 0)
  {
    rows := [];
    var oldIndex, newIndex := 0, 0;
    while oldIndex < |a| || newIndex < |b|
      invariant 0 <= oldIndex <= |a| && 0 <= newIndex <= |b|
      invariant rows + Trace(a, b, oldIndex, newIndex) == Trace(a, b, 0, 0)
      decreases |a| - oldIndex + |b| - newIndex
    {
      ghost var shown := rows;
      assert RowFilled(matrix, a, b, oldIndex, 0);
      assert oldIndex < |a| ==> RowFilled(matrix, a, b, oldIndex + 1, 0);
      if oldIndex < |a| && newIndex < |b| && a[oldIndex] == b[newIndex] {
        rows := rows + [Context(oldIndex + 1, newIndex + 1, a[oldIndex])];
        oldIndex, newIndex := oldIndex + 1, newIndex + 1;
      } else if newIndex < |b| &&
          (oldIndex == |a| || matrix[oldIndex, newIndex + 1] > matrix[oldIndex + 1, newIndex]) {
        rows := rows + [Added(newIndex + 1, b[newIndex])];
        newIndex := newIndex + 1;
      } else {
        rows := rows + [Removed(oldIndex + 1, a[oldIndex])];
        oldIndex := oldIndex + 1;
      }
      Regroup(shown, rows, Trace(a, b, oldIndex, newIndex));
    }
  }

  // ----- The prefix/suffix approximation -----

  function CommonPrefix(a: seq<string>, b: seq<string>): (p: nat)
    ensures p <= |a| && p <= |b|
  {
    if a != [] && b != [] && a[0] == b[0] then 1 + CommonPrefix(a[1..], b[1..]) else 0
  }

  function CommonSuffix(a: seq<string>, b: seq<string>): (s: nat)
    ensures s <= |a| && s <= |b|
  {
    if a != [] && b != [] && a[|a| - 1] == b[|b| - 1] then 1 + CommonSuffix(a[..|a| - 1], b[..|b| - 1]) else 0
  }

  /** The lengths of the aligned ends: the common prefix, then the common suffix of what is left. */
  function Ends(a: seq<string>, b: seq<string>): (e: (nat, nat))
    ensures e.0 + e.1 <= |a| && e.0 + e.1 <= |b|
  {
    var p := CommonPrefix(a, b);
    (p, CommonSuffix(a[p..], b[p..]))
  }

  lemma {:induction false} CommonPrefixMeans(a: seq<string>, b: seq<string>)
    ensures var p := CommonPrefix(a, b); a[..p] == b[..p] && (p < |a| && p < |b| ==> a[p] != b[p])
    ensures CommonPrefix(b, a) == CommonPrefix(a, b)
  {
    if a != [] && b != [] && a[0] == b[0] {
      CommonPrefixMeans(a[1..], b[1..]);
      var p := CommonPrefix(a, b);
      assert a[..p] == [a[0]] + a[1..][..p - 1] && b[..p] == [b[0]] + b[1..][..p - 1];
    }
  }

  /** The last s lines agree. */
  predicate EndsAlike(a: seq<string>, b: seq<string>, s: nat)
    requires s <= |a| && s <= |b|
  {
    forall i :: |a| - s <= i < |a| ==> a[i] == b[i + |b| - |a|]
  }

  lemma {:induction false} CommonSuffixMeans(a: seq<string>, b: seq<string>)
    ensures var s := CommonSuffix(a, b);
      EndsAlike(a, b, s) && (s < |a| && s < |b| ==> a[|a| - s - 1] != b[|b| - s - 1])
  {
    if a != [] && b != [] && a[|a| - 1] == b[|b| - 1] {
      var a', b', s := a[..|a| - 1], b[..|b| - 1], CommonSuffix(a, b);
      CommonSuffixMeans(a', b');
      forall i | |a| - s <= i < |a| ensures a[i] == b[i + |b| - |a|] {
        if i < |a| - 1 {
          assert a'[i] == b'[i + |b'| - |a'|];
        }
      }
    }
  }

  lemma {:induction false} CommonSuffixSymmetric(a: seq<string>, b: seq<string>)
    ensures CommonSuffix(b, a) == CommonSuffix(a, b)
  {
    if a != [] && b != [] && a[|a| - 1] == b[|b| - 1] {
      CommonSuffixSymmetric(a[..|a| - 1], b[..|b| - 1]);
    }
  }

  lemma AlikeSlices(a: seq<string>, b: seq<string>, s: nat)
    requires s <= |a| && s <= |b| && EndsAlike(a, b, s)
    ensures a[|a| - s..] == b[|b| - s..]
  {
    var x, y := a[|a| - s..], b[|b| - s..];
    forall k | 0 <= k < s ensures x[k] == y[k] {
      assert a[|a| - s + k] == b[|b| - s + k];
    }
  }

  lemma AlikeBefore(a: seq<string>, b: seq<string>, p: nat, s: nat)
    requires p + s <= |a| && p + s <= |b| && EndsAlike(a[p..], b[p..], s)
    ensures EndsAlike(a, b, s)
  {
    forall i | |a| - s <= i < |a| ensures a[i] == b[i + |b| - |a|] {
      assert a[p..][i - p] == b[p..][i - p + |b| - |a|];
    }
  }

  /** The ends agree line by line. */
  lemma EndsAgree(a: seq<string>, b: seq<string>)
    ensures var (p, s) := Ends(a, b); a[..p] == b[..p] && a[|a| - s..] == b[|b| - s..]
  {
    var p, s := Ends(a, b).0, Ends(a, b).1;
    CommonPrefixMeans(a, b);
    assert EndsAlike(a, b, s) by {
      CommonSuffixMeans(a[p..], b[p..]);
      AlikeBefore(a, b, p, s);
    }
    AlikeSlices(a, b, s);
  }

  /** Neither end can be lengthened, and they do not depend on the direction. */
  lemma EndsMaximal(a: seq<string>, b: seq<string>)
    ensures var (p, s) := Ends(a, b);
      p + s < |a| && p + s < |b| ==> a[p] != b[p] && a[|a| - s - 1] != b[|b| - s - 1]
    ensures Ends(b, a) == Ends(a, b)
  {
    var p := CommonPrefix(a, b);
    CommonPrefixMeans(a, b);
    CommonSuffixMeans(a[p..], b[p..]);
    CommonSuffixSymmetric(a[p..], b[p..]);
  }

  /** What the approximation does not align: the lines between the two ends. */
  function Middles(a: seq<string>, b: seq<string>): (seq<string>, seq<string>) {
    var (p, s) := Ends(a, b);
    (a[p..|a| - s], b[p..|b| - s])
  }

  function ContextRows(a: seq<string>, from: nat, to: nat, shift: int): seq<Row>
    requires from <= to <= |a| && 0 <= from + shift
    decreases |a| - from
  {
    if from == to then [] else [Context(from + 1, from + shift + 1, a[from])] + ContextRows(a, from + 1, to, shift)
  }

  function RemovedLines(a: seq<string>, from: nat, to: nat): seq<Row>
    requires from <= to <= |a|
    decreases |a| - from
  {
    if from == to then [] else [Removed(from + 1, a[from])] + RemovedLines(a, from + 1, to)
  }

  function AddedLines(b: seq<string>, from: nat, to: nat): seq<Row>
    requires from <= to <= |b|
    decreases |b| - from
  {
    if from == to then [] else [Added(from + 1, b[from])] + AddedLines(b, from + 1, to)
  }

  function ReplacementWith(a: seq<string>, b: seq<string>, p: nat, s: nat): seq<Row>
    requires p + s <= |a| && p + s <= |b|
  {
    ContextRows(a, 0, p, 0) + (RemovedLines(a, p, |a| - s) + (AddedLines(b, p, |b| - s) +
    ContextRows(a, |a| - s, |a|, |b| - |a|)))
  }

  function Replacement(a: seq<string>, b: seq<string>): seq<Row> {
    ReplacementWith(a, b, Ends(a, b).0, Ends(a, b).1)
  }

  lemma {:induction false} PrependContexts(a: seq<string>, b: seq<string>, from: nat, to: nat, shift: int,
                                           rest: seq<Row>)
    requires from <= to <= |a| && 0 <= from + shift && to + shift <= |b|
    requires a[from..to] == b[from + shift..to + shift] && Rewrites(rest, a, b, to, to + shift)
    ensures Rewrites(ContextRows(a, from, to, shift) + rest, a, b, from, from + shift)
    ensures Contexts(ContextRows(a, from, to, shift) + rest) == to - from + Contexts(rest)
    decreases |a| - from
  {
    if from == to {
      assert [] + rest == rest;
    } else {
      assert a[from] == a[from..to][0] == b[from + shift..to + shift][0] == b[from + shift];
      assert a[from + 1..to] == a[from..to][1..] == b[from + shift..to + shift][1..] == b[from + 1 + shift..to + shift];
      PrependContexts(a, b, from + 1, to, shift, rest);
      var row, tail := Context(from + 1, from + shift + 1, a[from]), ContextRows(a, from + 1, to, shift);
      Prepend(row, tail + rest, a, b, from, from + shift);
      assert ([row] + tail) + rest == [row] + (tail + rest);
    }
  }

  lemma {:induction false} PrependRemoved(a: seq<string>, b: seq<string>, from: nat, to: nat, j: nat, rest: seq<Row>)
    requires from <= to <= |a| && j <= |b| && Rewrites(rest, a, b, to, j)
    ensures Rewrites(RemovedLines(a, from, to) + rest, a, b, from, j)
    ensures Contexts(RemovedLines(a, from, to) + rest) == Contexts(rest)
    decreases |a| - from
  {
    if from == to {
      assert [] + rest == rest;
    } else {
      PrependRemoved(a, b, from + 1, to, j, rest);
      var row, tail := Removed(from + 1, a[from]), RemovedLines(a, from + 1, to);
      Prepend(row, tail + rest, a, b, from, j);
      assert ([row] + tail) + rest == [row] + (tail + rest);
    }
  }

  lemma {:induction false} PrependAdded(a: seq<string>, b: seq<string>, i: nat, from: nat, to: nat, rest: seq<Row>)
    requires i <= |a| && from <= to <= |b| && Rewrites(rest, a, b, i, to)
    ensures Rewrites(AddedLines(b, from, to) + rest, a, b, i, from)
    ensures Contexts(AddedLines(b, from, to) + rest) == Contexts(rest)
    decreases |b| - from
  {
    if from == to {
      assert [] + rest == rest;
    } else {
      PrependAdded(a, b, i, from + 1, to, rest);
      var row, tail := Added(from + 1, b[from]), AddedLines(b, from + 1, to);
      Prepend(row, tail + rest, a, b, i, from);
      assert ([row] + tail) + rest == [row] + (tail + rest);
    }
  }

  lemma TrimEnds(a: seq<string>, b: seq<string>, p: nat, s: nat)
    requires p + s <= |a| && p + s <= |b| && a[..p] == b[..p] && a[|a| - s..] == b[|b| - s..]
    ensures Lcs(a, b, 0, 0) == p + s + Lcs(a[p..|a| - s], b[p..|b| - s], 0, 0)
  {
    var x, y := a[p..], b[p..];
    TrimPrefix(a, b, p);
    assert x[|x| - s..] == a[|a| - s..] && y[|y| - s..] == b[|b| - s..];
    TrimSuffix(x, y, s);
    assert x[..|x| - s] == a[p..|a| - s] && y[..|y| - s] == b[p..|b| - s];
  }

  lemma ReplacementTail(a: seq<string>, b: seq<string>, p: nat, s: nat)
    requires p + s <= |a| && p + s <= |b| && a[|a| - s..] == b[|b| - s..]
    ensures var rows := RemovedLines(a, p, |a| - s) + (AddedLines(b, p, |b| - s) +
                        ContextRows(a, |a| - s, |a|, |b| - |a|));
      Rewrites(rows, a, b, p, p) && Contexts(rows) == s
  {
    var suffix := ContextRows(a, |a| - s, |a|, |b| - |a|);
    assert a[|a| - s..|a|] == a[|a| - s..] && b[|b| - s..|b|] == b[|b| - s..];
    PrependContexts(a, b, |a| - s, |a|, |b| - |a|, []);
    assert suffix + [] == suffix;
    PrependAdded(a, b, |a| - s, p, |b| - s, suffix);
    PrependRemoved(a, b, p, |a| - s, p, AddedLines(b, p, |b| - s) + suffix);
  }

  lemma ReplacementWithRewrites(a: seq<string>, b: seq<string>, p: nat, s: nat)
    requires p + s <= |a| && p + s <= |b| && a[..p] == b[..p] && a[|a| - s..] == b[|b| - s..]
    ensures Rewrites(ReplacementWith(a, b, p, s), a, b, 0, 0)
    ensures Contexts(ReplacementWith(a, b, p, s)) == p + s
  {
    ReplacementTail(a, b, p, s);
    assert a[0..p] == a[..p] && b[0..p] == b[..p];
    PrependContexts(a, b, 0, p, 0,
      RemovedLines(a, p, |a| - s) + (AddedLines(b, p, |b| - s) + ContextRows(a, |a| - s, |a|, |b| - |a|)));
  }

  /** Trimming equal ends loses no alignment; only what the middles share is given up. */
  lemma ReplacementRewrites(a: seq<string>, b: seq<string>)
    ensures Rewrites(Replacement(a, b), a, b, 0, 0)
    ensures Contexts(Replacement(a, b)) == Ends(a, b).0 + Ends(a, b).1
    ensures Lcs(a, b, 0, 0) == Contexts(Replacement(a, b)) + Lcs(Middles(a, b).0, Middles(a, b).1, 0, 0)
  {
    EndsAgree(a, b);
    ReplacementWithRewrites(a, b, Ends(a, b).0, Ends(a, b).1);
    TrimEnds(a, b, Ends(a, b).0, Ends(a, b).1);
  }

  lemma PrefixStep(a: seq<string>, b: seq<string>, p: nat)
    requires p < |a| && p < |b|
    ensures CommonPrefix(a[p..], b[p..]) == if a[p] == b[p] then 1 + CommonPrefix(a[p + 1..], b[p + 1..]) else 0
  {
    assert a[p..][1..] == a[p + 1..] && b[p..][1..] == b[p + 1..];
  }

  lemma SuffixStep(a: seq<string>, b: seq<string>, s: nat)
    requires s < |a| && s < |b|
    ensures CommonSuffix(a[..|a| - s], b[..|b| - s])
         == if a[|a| - s - 1] == b[|b| - s - 1] then 1 + CommonSuffix(a[..|a| - s - 1], b[..|b| - s - 1]) else 0
  {
    assert a[..|a| - s][..|a| - s - 1] == a[..|a| - s - 1];
    assert b[..|b| - s][..|b| - s - 1] == b[..|b| - s - 1];
  }

  method PrefixLength(previous: seq<string>, next: seq<string>) returns (prefix: nat)
    ensures prefix == CommonPrefix(previous, next)
  {
    prefix := 0;
    assert previous[0..] == previous && next[0..] == next;
    while prefix < |previous| && prefix < |next| && previous[prefix] == next[prefix]
      invariant prefix <= |previous| && prefix <= |next|
      invariant prefix + CommonPrefix(previous[prefix..], next[prefix..]) == CommonPrefix(previous, next)
    {
      PrefixStep(previous, next, prefix);
      prefix := prefix + 1;
    }
    if prefix < |previous| && prefix < |next| {
      PrefixStep(previous, next, prefix);
    }
  }

  method SuffixLength(previous: seq<string>, next: seq<string>, prefix: nat) returns (suffix: nat)
    requires prefix <= |previous| && prefix <= |next|
    ensures suffix == CommonSuffix(previous[prefix..], next[prefix..])
  {
    ghost var a, b := previous[prefix..], next[prefix..];
    suffix := 0;
    assert a[..|a|] == a && b[..|b|] == b;
    while suffix < |previous| - prefix && suffix < |next| - prefix &&
        previous[|previous| - suffix - 1] == next[|next| - suffix - 1]
      invariant suffix <= |a| && suffix <= |b|
      invariant suffix + CommonSuffix(a[..|a| - suffix], b[..|b| - suffix]) == CommonSuffix(a, b)
    {
      SuffixStep(a, b, suffix);
      suffix := suffix + 1;
    }
    if suffix < |a| && suffix < |b| {
      SuffixStep(a, b, suffix);
    }
  }

  method ReplacementRows(previous: seq<string>, next: seq<string>) returns (rows: seq<Row>)
    ensures rows == Replacement(previous, next)
  {
    var prefix := PrefixLength(previous, next);
    var suffix := SuffixLength(previous, next, prefix);
    rows := ReplacementWith(previous, next, prefix, suffix);
  }
}
