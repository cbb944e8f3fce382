/** buildLineDiff as a whole, and what its result promises about the two texts. */
module FormatDiff {
  import opened LineText
  import opened Alignments
  import opened LineDiff

  datatype NewlineChange = Unchanged | NewlineAdded | NewlineRemoved

  datatype Diff = Diff(rows: seq<Row>, added: nat, removed: nat, simplified: bool,
                       newlineChange: NewlineChange, lineEndingsChanged: bool)

  /** Decided on the raw texts, before line endings are normalized. */
  function NewlineChangeOf(before: string, after: string): NewlineChange {
    if EndsWith(before, '\n') == EndsWith(after, '\n') then Unchanged
    else if EndsWith(after, '\n') then NewlineAdded
    else NewlineRemoved
  }

  predicate TooLarge(before: string, after: string) {
    |Lines(before)| * |Lines(after)| > MAX_ALIGNMENT_CELLS
  }

  function RowsOf(before: string, after: string): seq<Row> {
    if TooLarge(before, after) then Replacement(Lines(before), Lines(after))
    else Trace(Lines(before), Lines(after), 0, 0)
  }

  function DiffOf(before: string, after: string): Diff {
    var rows := RowsOf(before, after);
    Diff(rows, AddedRows(rows), RemovedRows(rows), TooLarge(before, after),
         NewlineChangeOf(before, after), ('\r' in before) != ('\r' in after))
  }

  method BuildLineDiff(before: string, after: string) returns (diff: Diff)
    ensures diff == DiffOf(before, after)
  {
    var previous, next := Lines(before), Lines(after);
    var newlineChange := if EndsWith(before, '\n') == EndsWith(after, '\n') then Unchanged
                         else if EndsWith(after, '\n') then NewlineAdded else NewlineRemoved;
    var lineEndingsChanged := ('\r' in before) != ('\r' in after);
    var alignmentCells := |previous| * |next|;
    if alignmentCells > MAX_ALIGNMENT_CELLS {
      var rows := ReplacementRows(previous, next);
      return Diff(rows, AddedRows(rows), RemovedRows(rows), true, newlineChange, lineEndingsChanged);
    }
    var matrix := FillMatrix(previous, next);
    var rows := WalkMatrix(previous, next, matrix);
    return Diff(rows, AddedRows(rows), RemovedRows(rows), false, newlineChange, lineEndingsChanged);
  }

  /** Rows that show every line of both texts once, in order, under its own number. */
  predicate Faithful(rows: seq<Row>, before: string, after: string) {
    BeforeSide(rows) == Numbered(Lines(before)) && AfterSide(rows) == Numbered(Lines(after))
  }

  /** The rows of the diff rewrite the one text into the other, on either path. */
  lemma DiffIsFaithful(before: string, after: string)
    ensures var rows := DiffOf(before, after).rows;
      Faithful(rows, before, after) && |rows| <= |Lines(before)| + |Lines(after)|
    ensures var a, b := Lines(before), Lines(after);
      Contexts(RowsOf(before, after)) + DiffOf(before, after).removed == |a|
      && Contexts(RowsOf(before, after)) + DiffOf(before, after).added == |b|
  {
    var a, b := Lines(before), Lines(after);
    assert Numbered(a)[0..] == Numbered(a) && Numbered(b)[0..] == Numbered(b);
    RowCounts(RowsOf(before, after));
    if TooLarge(before, after) {
      ReplacementRewrites(a, b);
    } else {
      TraceRewrites(a, b, 0, 0);
    }
  }

  /** Any rows that show both texts change at least as many lines as the longest alignment leaves over. */
  lemma ChangesOfAnyRows(rows: seq<Row>, before: string, after: string)
    requires Faithful(rows, before, after)
    ensures var a, b := Lines(before), Lines(after);
      RemovedRows(rows) + Contexts(rows) == |a| && AddedRows(rows) + Contexts(rows) == |b|
      && Contexts(rows) <= Lcs(a, b, 0, 0)
  {
    var a, b := Lines(before), Lines(after);
    assert Numbered(a)[0..] == Numbered(a) && Numbered(b)[0..] == Numbered(b);
    RowCounts(rows);
    ContextBound(rows, a, b, 0, 0);
  }

  /**
   Up to the limit of a million cells no faithful rows add or remove fewer lines, the kept lines are a longest
   alignment of the two texts, and among the faithful rows that do as well the diff's rows are the
   first in row order: so the rows are determined, not only their number.
   */
  lemma ExactDiffIsMinimal(before: string, after: string, rows: seq<Row>)
    requires |Lines(before)| * |Lines(after)| <= 1_000_000 && Faithful(rows, before, after)
    ensures var diff := DiffOf(before, after);
      && !diff.simplified
      && IsLongest(Lines(before), Lines(after), 0, 0, Contexts(diff.rows))
      && diff.added <= AddedRows(rows) && diff.removed <= RemovedRows(rows)
      && (diff.added + diff.removed == AddedRows(rows) + RemovedRows(rows) ==> NoLaterThan(diff.rows, rows))
  {
    var a, b := Lines(before), Lines(after);
    DiffIsFaithful(before, after);
    ChangesOfAnyRows(rows, before, after);
    TraceRewrites(a, b, 0, 0);
    LcsIsLongest(a, b, 0, 0, Lcs(a, b, 0, 0));
    assert Numbered(a)[0..] == Numbered(a) && Numbered(b)[0..] == Numbered(b);
    if Contexts(rows) == Lcs(a, b, 0, 0) {
      TraceIsFirst(rows, a, b, 0, 0);
    }
  }

  /**
   Above the limit each count exceeds the minimum by exactly the longest common subsequence of the
   middles, so the approximation is minimal exactly when no line occurs in both middles.
   */
  lemma SimplifiedDiffExcess(before: string, after: string)
    requires |Lines(before)| * |Lines(after)| > 1_000_000
    ensures var diff, a, b := DiffOf(before, after), Lines(before), Lines(after);
      var excess := Lcs(Middles(a, b).0, Middles(a, b).1, 0, 0);
      && diff.simplified
      && diff.removed == |a| - Lcs(a, b, 0, 0) + excess && diff.added == |b| - Lcs(a, b, 0, 0) + excess
    ensures var diff, a, b := DiffOf(before, after), Lines(before), Lines(after);
      (forall rows :: Faithful(rows, before, after) ==>
        diff.added + diff.removed <= AddedRows(rows) + RemovedRows(rows))
      <==> (forall line :: line in Middles(a, b).0 ==> line !in Middles(a, b).1)
  {
    var diff, a, b := DiffOf(before, after), Lines(before), Lines(after);
    DiffIsFaithful(before, after);
    ReplacementRewrites(a, b);
    LcsZero(Middles(a, b).0, Middles(a, b).1);
    forall rows | Faithful(rows, before, after)
      ensures |a| + |b| - 2 * Lcs(a, b, 0, 0) <= AddedRows(rows) + RemovedRows(rows)
    {
      ChangesOfAnyRows(rows, before, after);
    }
    TraceRewrites(a, b, 0, 0);
    assert Numbered(a)[0..] == Numbered(a) && Numbered(b)[0..] == Numbered(b);
    assert Faithful(Trace(a, b, 0, 0), before, after);
    ChangesOfAnyRows(Trace(a, b, 0, 0), before, after);
  }

  function Reversed(change: NewlineChange): NewlineChange {
    match change
    case Unchanged => Unchanged
    case NewlineAdded => NewlineRemoved
    case NewlineRemoved => NewlineAdded
  }

  lemma ContextsSymmetric(a: seq<string>, b: seq<string>)
    ensures Contexts(Replacement(a, b)) == Contexts(Replacement(b, a))
    ensures Contexts(Trace(a, b, 0, 0)) == Contexts(Trace(b, a, 0, 0))
  {
    TraceRewrites(a, b, 0, 0);
    TraceRewrites(b, a, 0, 0);
    LcsSymmetric(a, b, 0, 0);
    ReplacementRewrites(a, b);
    ReplacementRewrites(b, a);
    EndsMaximal(a, b);
  }

  lemma SizeSymmetric(x: nat, y: nat)
    ensures x * y == y * x
  {
  }

  lemma SwapCounts(before: string, after: string)
    ensures TooLarge(after, before) == TooLarge(before, after)
    ensures var there, back := DiffOf(before, after), DiffOf(after, before);
      back.added == there.removed && back.removed == there.added
  {
    var a, b := Lines(before), Lines(after);
    SizeSymmetric(|a|, |b|);
    ContextsSymmetric(a, b);
    DiffIsFaithful(before, after);
    DiffIsFaithful(after, before);
  }

  /** Exchanging the texts exchanges additions with removals, on either path. */
  lemma SwapInputs(before: string, after: string)
    ensures var there, back := DiffOf(before, after), DiffOf(after, before);
      && back.added == there.removed && back.removed == there.added
      && back.simplified == there.simplified
      && back.newlineChange == Reversed(there.newlineChange)
      && back.lineEndingsChanged == there.lineEndingsChanged
  {
    SwapCounts(before, after);
  }

  /** But not always row by row: the walk prefers removals, so a tie is broken differently each way round. */
  lemma SwapDoesNotReverseRows()
    ensures DiffOf("x\ny", "y\nx").rows == [Removed(1, "x"), Context(2, 1, "y"), Added(2, "x")]
    ensures DiffOf("y\nx", "x\ny").rows == [Removed(1, "y"), Context(2, 1, "x"), Added(2, "y")]
  {
    TwoLines('x', 'y');
    TwoLines('y', 'x');
  }

  lemma TwoLineText(c: char, d: char)
    requires IsLine([c]) && IsLine([d])
    ensures Lines([c, '\n', d]) == [[c], [d]] && Lines([c, '\n', d, '\n']) == [[c], [d]]
  {
    var lines := [[c], [d]];
    assert lines[1..] == [[d]];
    assert Join(lines) == [c] + "\n" + [d] == [c, '\n', d];
    assert Unlines(lines, true) == [c, '\n', d, '\n'] && Unlines(lines, false) == [c, '\n', d];
    LinesOfUnlines(lines, true);
    LinesOfUnlines(lines, false);
  }

  lemma TwoLines(c: char, d: char)
    requires IsLine([c]) && IsLine([d]) && c != d
    ensures DiffOf([c, '\n', d], [d, '\n', c]).rows == [Removed(1, [c]), Context(2, 1, [d]), Added(2, [c])]
  {
    var a, b := [[c], [d]], [[d], [c]];
    TwoLineText(c, d);
    TwoLineText(d, c);
    assert Lcs(a, b, 2, 1) == 0 && Lcs(a, b, 2, 0) == 0 && Lcs(a, b, 1, 1) == 0;
    assert Lcs(a, b, 1, 0) == 1 && Lcs(a, b, 0, 1) == 1;
    assert Trace(a, b, 2, 2) == [];
    assert Trace(a, b, 2, 1) == [Added(2, [c])];
    assert Trace(a, b, 1, 0) == [Context(2, 1, [d])] + Trace(a, b, 2, 1);
  }

  /** On either path nothing is added or removed exactly when the line sequences are equal. */
  lemma NoChangesIff(before: string, after: string)
    ensures DiffOf(before, after).added == 0 && DiffOf(before, after).removed == 0
       <==> Lines(before) == Lines(after)
  {
    var a, b := Lines(before), Lines(after);
    DiffIsFaithful(before, after);
    ChangesOfAnyRows(RowsOf(before, after), before, after);
    LcsBounds(a, b, 0, 0);
    LcsFull(a, b);
    if a == b {
      if TooLarge(before, after) {
        EqualPrefix(a);
        ReplacementRewrites(a, b);
      } else {
        TraceRewrites(a, b, 0, 0);
      }
    }
  }

  lemma {:induction false} EqualPrefix(a: seq<string>)
    ensures CommonPrefix(a, a) == |a|
  {
    if a != [] {
      EqualPrefix(a[1..]);
    }
  }

  /**
   The final newline is looked for before carriage returns are turned into newlines. What is reported
   of it is true of the normalized texts exactly when both texts, or neither, end in a carriage return.
   */
  lemma NewlineChangeIsNormalIff(before: string, after: string)
    ensures NewlineChangeOf(before, after) == NewlineChangeOf(Normalize(before), Normalize(after)) <==>
      EndsWith(before, '\r') == EndsWith(after, '\r')
  {
    NormalizeEnding(before);
    NormalizeEnding(after);
  }

  lemma NormalizeLineEnd(c: char)
    requires IsLine([c])
    ensures Normalize([c, '\r']) == [c, '\n'] && Normalize([c, '\n']) == [c, '\n']
  {
    assert [c, '\r'][1..] == ['\r'] && Normalize(['\r']) == ['\n'];
    assert [c, '\n'][1..] == ['\n'] && Normalize(['\n']) == ['\n'];
  }

  /** A final newline is reported as added between texts that are equal once normalized. */
  lemma NewlineReportedYetEqual()
    ensures var diff := DiffOf("a\r", "a\n"); diff.added == 0 && diff.removed == 0 && diff.newlineChange == NewlineAdded
    ensures Normalize("a\r") == Normalize("a\n")
  {
    var before, after := ['a', '\r'], ['a', '\n'];
    NormalizeLineEnd('a');
    assert Lines(before) == Lines(after);
    NoChangesIff(before, after);
  }

  /**
   So a diff that reports no added, removed or final-newline change means equal normalized texts
   exactly then.
   */
  lemma NothingReported(before: string, after: string)
    requires var diff := DiffOf(before, after);
      diff.added == 0 && diff.removed == 0 && diff.newlineChange == Unchanged
    ensures Normalize(before) == Normalize(after) <==> EndsWith(before, '\r') == EndsWith(after, '\r')
  {
    NoChangesIff(before, after);
    EqualLines(before, after);
    NewlineChangeIsNormalIff(before, after);
  }

  lemma NormalizeTwoLines(c: char, d: char)
    requires IsLine([c]) && IsLine([d])
    ensures Normalize([c, '\r', d]) == [c, '\n', d]
    ensures Normalize([c, '\r', d, '\r']) == [c, '\n', d, '\n']
  {
    assert [c, '\r', d][1..] == ['\r', d] && ['\r', d][1..] == [d];
    assert Normalize([d]) == [d];
    assert [c, '\r', d, '\r'][1..] == ['\r', d, '\r'] && ['\r', d, '\r'][1..] == [d, '\r'] && [d, '\r'][1..] == ['\r'];
    assert Normalize(['\r']) == ['\n'];
    assert Normalize([d, '\r']) == [d, '\n'];
  }

  /** The failing family is not empty. */
  lemma NothingReportedYetDifferent()
    ensures var diff := DiffOf("a\rb\r", "a\rb");
      && diff.added == 0 && diff.removed == 0 && diff.newlineChange == Unchanged && !diff.lineEndingsChanged
    ensures Normalize("a\rb\r") != Normalize("a\rb")
  {
    var before, after := ['a', '\r', 'b', '\r'], ['a', '\r', 'b'];
    NormalizeTwoLines('a', 'b');
    TwoLineText('a', 'b');
    NormalizeFixedPoints("a\nb\n");
    NormalizeFixedPoints("a\nb");
    assert Lines(before) == Lines(after);
    NoChangesIff(before, after);
    assert before[1] == '\r' && after[1] == '\r';
  }

  /**
   Nothing reported at all, line endings included, means equal texts whenever one of them holds no
   carriage return.
   */
  lemma SilenceMeansEqual(before: string, after: string)
    requires var diff := DiffOf(before, after);
      diff.added == 0 && diff.removed == 0 && diff.newlineChange == Unchanged && !diff.lineEndingsChanged
    requires '\r' !in before || '\r' !in after
    ensures before == after
  {
    assert !EndsWith(before, '\r') && !EndsWith(after, '\r');
    NothingReported(before, after);
    NormalizeFixedPoints(before);
    NormalizeFixedPoints(after);
  }

  /** Where both hold one, the kinds of line ending are not compared. */
  lemma SilentLineEndings()
    ensures var diff := DiffOf("a\r\nb", "a\rb");
      && diff.added == 0 && diff.removed == 0 && diff.newlineChange == Unchanged && !diff.lineEndingsChanged
    ensures Normalize("a\r\nb") == Normalize("a\rb")
  {
    var before, after := ['a', '\r', '\n', 'b'], ['a', '\r', 'b'];
    NormalizeTwoLines('a', 'b');
    assert before[1..] == ['\r', '\n', 'b'] && before[1..][2..] == ['b'];
    assert Normalize(['b']) == ['b'];
    assert Lines(before) == Lines(after);
    NoChangesIff(before, after);
    assert before[1] == '\r' && after[1] == '\r';
  }
}
