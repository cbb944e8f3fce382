/**
 The three kinds of line ending. Every text is a sequence of lines, each with its own ending, and one
 last line without any; the formatter's diff sees those lines and nothing of the endings.
 */
module LineEndings {
  import opened LineText
  import opened FormatDiff

  datatype LineEnd = LF | CR | CRLF

  function EndText(end: LineEnd): string {
    match end
    case LF => "\n"
    case CR => "\r"
    case CRLF => "\r\n"
  }

  /** Each line with its ending, then the last line, which is empty when the text ends in a line ending. */
  function Written(lines: seq<string>, ends: seq<LineEnd>, last: string): string
    requires |lines| == |ends|
  {
    if lines == [] then last else lines[0] + (EndText(ends[0]) + Written(lines[1..], ends[1..], last))
  }

  predicate AllLines(lines: seq<string>) {
    forall k :: 0 <= k < |lines| ==> IsLine(lines[k])
  }

  /** A carriage return and an empty line ended by a newline cannot stand side by side: they are one CR LF. */
  predicate Apart(lines: seq<string>, ends: seq<LineEnd>)
    requires |lines| == |ends|
  {
    forall k :: 0 < k < |lines| && lines[k] == "" && ends[k].LF? ==> !ends[k - 1].CR?
  }

  function Same(n: nat, end: LineEnd): (ends: seq<LineEnd>)
    ensures |ends| == n
  {
    if n == 0 then [] else [end] + Same(n - 1, end)
  }

  // ----- Normalizing is local -----

  /** Normalizing starts with the same step whatever follows, unless the cut goes through a CR LF. */
  lemma FirstStep(x: string, y: string) returns (piece: string, n: nat)
    requires x != "" && !(EndsWith(x, '\r') && y != "" && y[0] == '\n')
    ensures 1 <= n <= |x| && Normalize(x) == piece + Normalize(x[n..])
    ensures Normalize(x + y) == piece + Normalize(x[n..] + y)
  {
    n := if x[0] == '\r' && |x| > 1 && x[1] == '\n' then 2 else 1;
    piece := if x[0] == '\r' then "\n" else [x[0]];
    assert (x + y)[n..] == x[n..] + y;
  }

  /** So texts can be normalized piece by piece. */
  lemma {:induction false} NormalizeConcat(x: string, y: string)
    requires !(EndsWith(x, '\r') && y != "" && y[0] == '\n')
    ensures Normalize(x + y) == Normalize(x) + Normalize(y)
    decreases |x|
  {
    if x == "" {
      assert x + y == y;
    } else {
      var piece, n := FirstStep(x, y);
      NormalizeConcat(x[n..], y);
      Regroup(piece, Normalize(x[n..]), Normalize(y));
    }
  }

  /** A CR LF between any two texts is one line ending. */
  lemma NormalizeCrLf(x: string, y: string)
    ensures Normalize(x + ("\r\n" + y)) == Normalize(x) + ("\n" + Normalize(y))
  {
    NormalizeConcat(x, "\r\n" + y);
    assert ("\r\n" + y)[2..] == y;
  }

  /** So is a carriage return before anything but a newline. */
  lemma NormalizeCr(x: string, y: string)
    requires y != "" ==> y[0] != '\n'
    ensures Normalize(x + ("\r" + y)) == Normalize(x) + ("\n" + Normalize(y))
  {
    NormalizeConcat(x, "\r" + y);
    assert ("\r" + y)[1..] == y;
  }

  /** So is a newline after anything but a carriage return. */
  lemma NormalizeLf(x: string, y: string)
    requires !EndsWith(x, '\r')
    ensures Normalize(x + ("\n" + y)) == Normalize(x) + ("\n" + Normalize(y))
  {
    NormalizeConcat(x, "\n" + y);
    assert ("\n" + y)[1..] == y;
  }

  lemma NormalizeEnded(line: string, end: LineEnd, text: string)
    requires IsLine(line) && (end.CR? && text != "" ==> text[0] != '\n')
    ensures Normalize(line + (EndText(end) + text)) == line + ("\n" + Normalize(text))
  {
    NormalizeFixedPoints(line);
    match end
    case LF => NormalizeLf(line, text);
    case CR => NormalizeCr(line, text);
    case CRLF => NormalizeCrLf(line, text);
  }

  lemma WrittenHead(lines: seq<string>, ends: seq<LineEnd>, last: string)
    requires |lines| == |ends| && AllLines(lines) && IsLine(last)
    ensures Written(lines, ends, last) != "" && Written(lines, ends, last)[0] == '\n' ==>
      lines != [] && lines[0] == "" && ends[0].LF?
  {
    if lines != [] && lines[0] != "" {
      assert Written(lines, ends, last)[0] == lines[0][0];
    }
  }

  // ----- Lines of any text -----

  lemma {:induction false} NormalizeWritten(lines: seq<string>, ends: seq<LineEnd>, last: string)
    requires |lines| == |ends| && AllLines(lines) && IsLine(last) && Apart(lines, ends)
    ensures Normalize(Written(lines, ends, last)) == Written(lines, Same(|lines|, LF), last)
    decreases |lines|
  {
    if lines == [] {
      NormalizeFixedPoints(last);
    } else {
      var rest := Written(lines[1..], ends[1..], last);
      assert Same(|lines|, LF)[1..] == Same(|lines[1..]|, LF);
      assert Apart(lines[1..], ends[1..]) by {
        forall k | 0 < k < |lines[1..]| && lines[1..][k] == "" && ends[1..][k].LF? ensures !ends[1..][k - 1].CR? {
          assert lines[k + 1] == "" && ends[k + 1].LF?;
        }
      }
      WrittenHead(lines[1..], ends[1..], last);
      NormalizeEnded(lines[0], ends[0], rest);
      NormalizeWritten(lines[1..], ends[1..], last);
    }
  }

  lemma {:induction false} SplitWritten(lines: seq<string>, last: string)
    requires AllLines(lines) && IsLine(last)
    ensures Split(Written(lines, Same(|lines|, LF), last)) == lines + [last]
    decreases |lines|
  {
    if lines == [] {
      SplitLine(last);
    } else {
      var rest := Written(lines[1..], Same(|lines[1..]|, LF), last);
      assert Same(|lines|, LF)[1..] == Same(|lines[1..]|, LF);
      SplitWritten(lines[1..], last);
      SplitAfterLine(lines[0], rest);
      Regroup(lines[0], "\n", rest);
    }
  }

  /** Whatever the endings, the lines of the text are the lines it was written from. */
  lemma LinesOfWritten(lines: seq<string>, ends: seq<LineEnd>, last: string)
    requires |lines| == |ends| && AllLines(lines) && IsLine(last) && Apart(lines, ends)
    ensures Lines(Written(lines, ends, last)) == if last == "" then lines else lines + [last]
  {
    var text, normalized := Written(lines, ends, last), Normalize(Written(lines, ends, last));
    NormalizeWritten(lines, ends, last);
    SplitWritten(lines, last);
    NormalizeRemovesReturns(text);
    SplitPieces(normalized);
    assert (lines + [last])[..|lines|] == lines;
    if normalized == "" {
      SplitLine("");
      assert |lines + [last]| == 1;
    }
  }

  lemma WriteCharacter(c: char, lines: seq<string>, ends: seq<LineEnd>, last: string)
    requires |lines| == |ends| && lines != []
    ensures var longer := [[c] + lines[0]] + lines[1..];
      |longer| == |ends| && Written(longer, ends, last) == [c] + Written(lines, ends, last)
  {
    var longer := [[c] + lines[0]] + lines[1..];
    assert longer[1..] == lines[1..];
    Regroup([c], lines[0], EndText(ends[0]) + Written(lines[1..], ends[1..], last));
  }

  /** Every text is so written, so the lines of every text are determined by the lemma above. */
  lemma {:induction false} EveryTextIsWritten(source: string)
    returns (lines: seq<string>, ends: seq<LineEnd>, last: string)
    ensures |lines| == |ends| && AllLines(lines) && IsLine(last) && Apart(lines, ends)
    ensures Written(lines, ends, last) == source
    decreases |source|
  {
    if source == "" {
      lines, ends, last := [], [], "";
    } else if source[0] == '\r' || source[0] == '\n' {
      var end := if source[0] == '\n' then LF else if |source| > 1 && source[1] == '\n' then CRLF else CR;
      lines, ends, last := EveryTextIsWritten(source[|EndText(end)|..]);
      assert source == "" + (EndText(end) + source[|EndText(end)|..]);
      assert ([""] + lines)[1..] == lines && ([end] + ends)[1..] == ends;
      lines, ends := [""] + lines, [end] + ends;
    } else {
      lines, ends, last := EveryTextIsWritten(source[1..]);
      assert source == [source[0]] + source[1..];
      if lines == [] {
        last := [source[0]] + last;
      } else {
        WriteCharacter(source[0], lines, ends, last);
        lines := [[source[0]] + lines[0]] + lines[1..];
      }
    }
  }

  // ----- What the diff sees -----

  /** Between two texts that differ in their line endings only, nothing is added or removed. */
  lemma EndingsAreNotChanges(lines: seq<string>, before: seq<LineEnd>, after: seq<LineEnd>, last: string)
    requires |lines| == |before| == |after| && AllLines(lines) && IsLine(last)
    requires Apart(lines, before) && Apart(lines, after)
    ensures var diff := DiffOf(Written(lines, before, last), Written(lines, after, last));
      diff.added == 0 && diff.removed == 0
  {
    LinesOfWritten(lines, before, last);
    LinesOfWritten(lines, after, last);
    NoChangesIff(Written(lines, before, last), Written(lines, after, last));
  }

  lemma {:induction false} SameEnds(n: nat, end: LineEnd)
    ensures forall k :: 0 <= k < n ==> Same(n, end)[k] == end
  {
    if n > 0 {
      SameEnds(n - 1, end);
    }
  }

  lemma {:induction false} WrittenEnding(lines: seq<string>, end: LineEnd, last: string)
    requires AllLines(lines) && IsLine(last) && end != CR
    ensures var text := Written(lines, Same(|lines|, end), last);
      && (EndsWith(text, '\n') <==> lines != [] && last == "")
      && ('\r' in text <==> lines != [] && end.CRLF?)
      && (lines != [] ==> text != "")
    decreases |lines|
  {
    if lines != [] {
      assert Same(|lines|, end)[1..] == Same(|lines[1..]|, end);
      WrittenEnding(lines[1..], end, last);
      var rest := Written(lines[1..], Same(|lines[1..]|, end), last);
      var text := lines[0] + (EndText(end) + rest);
      assert rest != "" ==> text[|text| - 1] == rest[|rest| - 1];
      assert end.CRLF? ==> text[|lines[0]|] == '\r';
    }
  }

  /**
   A text written with CR LF throughout has the lines it was written from, and against its own LF form
   the diff reports the changed line endings and nothing else.
   */
  lemma CrLfAgainstLf(lines: seq<string>, last: string)
    requires AllLines(lines) && IsLine(last)
    ensures var n := |lines|;
      var crlf, lf := Written(lines, Same(n, CRLF), last), Written(lines, Same(n, LF), last);
      var diff := DiffOf(crlf, lf);
      && Lines(crlf) == Lines(lf) == (if last == "" then lines else lines + [last])
      && diff.added == 0 && diff.removed == 0 && diff.newlineChange == Unchanged
      && (diff.lineEndingsChanged <==> lines != [])
  {
    var n := |lines|;
    SameEnds(n, CRLF);
    SameEnds(n, LF);
    LinesOfWritten(lines, Same(n, CRLF), last);
    LinesOfWritten(lines, Same(n, LF), last);
    EndingsAreNotChanges(lines, Same(n, CRLF), Same(n, LF), last);
    WrittenEnding(lines, CRLF, last);
    WrittenEnding(lines, LF, last);
  }
}
