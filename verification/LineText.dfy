/**
 The text half of the formatter's diff: how a source text becomes a sequence of lines, and what
 that sequence forgets about the text.
 */
module LineText {

  /** Every CR LF pair and every lone CR becomes one LF. */
  function Normalize(source: string): string {
    if source == "" then ""
    else if source[0] == '\r' then
      "\n" + Normalize(if |source| > 1 && source[1] == '\n' then source[2..] else source[1..])
    else [source[0]] + Normalize(source[1..])
  }

  /** JavaScript's split on a one-character separator: always at least one piece. */
  function Split(text: string): (pieces: seq<string>)
    ensures |pieces| > 0
  {
    if text == "" then [""]
    else
      var rest := Split(text[1..]);
      if text[0] == '\n' then [""] + rest else [[text[0]] + rest[0]] + rest[1..]
  }

  predicate EndsWith(text: string, c: char) {
    text != "" && text[|text| - 1] == c
  }

  function Lines(source: string): seq<string> {
    var normalized := Normalize(source);
    if normalized == "" then []
    else
      var values := Split(normalized);
      if EndsWith(normalized, '\n') then values[..|values| - 1] else values
  }

  function Join(lines: seq<string>): string
    requires |lines| > 0
  {
    if |lines| == 1 then lines[0] else lines[0] + "\n" + Join(lines[1..])
  }

  /** The text that a line sequence denotes, with or without a newline after the last line. */
  function Unlines(lines: seq<string>, trailing: bool): string {
    if lines == [] then "" else Join(lines) + if trailing then "\n" else ""
  }

  predicate IsLine(line: string) {
    '\n' !in line && '\r' !in line
  }

  lemma {:induction false} NormalizeRemovesReturns(source: string)
    ensures '\r' !in Normalize(source)
    ensures Normalize(source) == "" <==> source == ""
  {
    if source != "" {
      NormalizeRemovesReturns(source[1..]);
      if |source| > 1 {
        NormalizeRemovesReturns(source[2..]);
      }
    }
  }

  lemma {:induction false} NormalizeEnding(source: string)
    ensures EndsWith(Normalize(source), '\n') <==> EndsWith(source, '\n') || EndsWith(source, '\r')
  {
    if |source| > 1 {
      if source[0] == '\r' && source[1] == '\n' {
        NormalizeEnding(source[2..]);
        NormalizeRemovesReturns(source[2..]);
      } else {
        NormalizeEnding(source[1..]);
        NormalizeRemovesReturns(source[1..]);
      }
    }
  }

  /** Normalizing changes nothing exactly in the texts that hold no carriage return. */
  lemma {:induction false} NormalizeFixedPoints(source: string)
    ensures Normalize(source) == source <==> '\r' !in source
  {
    NormalizeRemovesReturns(source);
    if source != "" && '\r' !in source {
      NormalizeFixedPoints(source[1..]);
    }
  }

  lemma {:induction false} SplitPieces(text: string)
    requires '\r' !in text
    ensures forall k :: 0 <= k < |Split(text)| ==> IsLine(Split(text)[k])
    ensures Split(text)[|Split(text)| - 1] == "" <==> text == "" || EndsWith(text, '\n')
  {
    if text != "" {
      SplitPieces(text[1..]);
    }
  }

  lemma {:induction false} JoinSplit(text: string)
    ensures Join(Split(text)) == text
  {
    if text != "" {
      JoinSplit(text[1..]);
      var rest := Split(text[1..]);
      if text[0] == '\n' {
        assert ([""] + rest)[1..] == rest;
        assert Join([""] + rest) == "" + "\n" + Join(rest);
      } else {
        JoinFirst(text[0], rest);
      }
    }
  }

  lemma Regroup(x: string, y: string, z: string)
    ensures (x + y) + z == x + (y + z)
  {
  }

  lemma JoinFirst(c: char, rest: seq<string>)
    requires |rest| > 0
    ensures Join([[c] + rest[0]] + rest[1..]) == [c] + Join(rest)
  {
    var longer := [[c] + rest[0]] + rest[1..];
    if |rest| > 1 {
      assert longer[1..] == rest[1..];
      Regroup([c], rest[0], "\n");
      Regroup([c], rest[0] + "\n", Join(rest[1..]));
    }
  }

  lemma {:induction false} JoinDropLast(lines: seq<string>)
    requires |lines| > 1
    ensures Join(lines) == Join(lines[..|lines| - 1]) + "\n" + lines[|lines| - 1]
  {
    if |lines| > 2 {
      JoinDropLast(lines[1..]);
      assert lines[1..][..|lines| - 2] == lines[..|lines| - 1][1..];
    }
  }

  lemma RebuildTerminated(text: string)
    requires '\r' !in text && EndsWith(text, '\n')
    ensures |Split(text)| > 1
    ensures Unlines(Split(text)[..|Split(text)| - 1], true) == text
  {
    var values := Split(text);
    SplitPieces(text);
    JoinSplit(text);
    if |values| > 1 {
      JoinDropLast(values);
      assert values[|values| - 1] == "";
      assert Join(values) == Join(values[..|values| - 1]) + "\n";
    }
  }

  /** Nothing but the kind of line ending is lost: the normalized text is rebuilt from its lines. */
  lemma LinesRebuildText(source: string)
    ensures Unlines(Lines(source), EndsWith(Normalize(source), '\n')) == Normalize(source)
    ensures forall k :: 0 <= k < |Lines(source)| ==> IsLine(Lines(source)[k])
  {
    NormalizeRemovesReturns(source);
    SplitPieces(Normalize(source));
    if EndsWith(Normalize(source), '\n') {
      RebuildTerminated(Normalize(source));
    } else {
      JoinSplit(Normalize(source));
    }
  }

  lemma {:induction false} SplitLine(line: string)
    requires '\n' !in line
    ensures Split(line) == [line]
  {
    if line != "" {
      SplitLine(line[1..]);
      assert [line[0]] + line[1..] == line;
    }
  }

  lemma {:induction false} SplitAfterLine(line: string, text: string)
    requires '\n' !in line
    ensures Split(line + "\n" + text) == [line] + Split(text)
  {
    if line == "" {
      assert line + "\n" + text == "\n" + text;
      assert ("\n" + text)[1..] == text;
    } else {
      SplitAfterLine(line[1..], text);
      var whole := line + "\n" + text;
      assert whole[1..] == line[1..] + "\n" + text;
      assert [line[0]] + line[1..] == line;
      assert Split(whole[1..])[1..] == Split(text);
    }
  }

  lemma {:induction false} SplitJoin(lines: seq<string>)
    requires |lines| > 0
    requires forall k :: 0 <= k < |lines| ==> IsLine(lines[k])
    ensures Split(Join(lines)) == lines
    ensures Join(lines) == "" <==> lines == [""]
    ensures '\r' !in Join(lines)
  {
    if |lines| == 1 {
      SplitLine(lines[0]);
    } else {
      SplitJoin(lines[1..]);
      SplitAfterLine(lines[0], Join(lines[1..]));
    }
  }

  lemma {:induction false} SplitTrailing(text: string)
    ensures Split(text + "\n") == Split(text) + [""]
  {
    if text == "" {
      assert text + "\n" == "\n";
      assert "\n"[1..] == "";
    } else {
      SplitTrailing(text[1..]);
      assert (text + "\n")[1..] == text[1..] + "\n";
    }
  }

  /**
   A line sequence survives being written out and split again exactly when the text ends in a
   newline, or it has no lines, or its last line is not empty: an empty last line without a
   newline after it cannot be told from the end of the line before it.
   */
  lemma LinesOfUnlines(lines: seq<string>, trailing: bool)
    requires forall k :: 0 <= k < |lines| ==> IsLine(lines[k])
    ensures Lines(Unlines(lines, trailing)) == lines
       <==> trailing || lines == [] || lines[|lines| - 1] != ""
  {
    if lines != [] {
      var text := Unlines(lines, trailing);
      SplitJoin(lines);
      NormalizeFixedPoints(text);
      SplitPieces(Join(lines));
      if trailing {
        SplitTrailing(Join(lines));
        assert Split(text) == lines + [""];
        assert (lines + [""])[..|lines|] == lines;
      } else {
        assert text == Join(lines);
      }
    }
  }

  /** Two texts with equal lines are equal up to line endings and one final newline. */
  lemma EqualLines(before: string, after: string)
    requires Lines(before) == Lines(after)
    ensures Normalize(before) == Normalize(after)
       <==> EndsWith(Normalize(before), '\n') == EndsWith(Normalize(after), '\n')
  {
    LinesRebuildText(before);
    LinesRebuildText(after);
  }
}
