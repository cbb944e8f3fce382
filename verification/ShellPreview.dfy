/**
 The POSIX line of a command preview, and how a shell reads it back. Read is the part of sections
 2.2 and 2.3 of the POSIX Shell Command Language that splits a line into words; it answers None
 where a shell would do more than split (operators, expansions, patterns, comments, an open quote).
 */
module ShellPreview {
  import opened Wrappers
  import opened Utf8
  import S = SafeText

  datatype Quoting = Plain | Single | Double

  /** word is the word being read, if one has started. */
  function Read(line: string, quoting: Quoting, word: Option<string>): Option<seq<string>>
    decreases |line|
  {
    match quoting
    case Plain =>
      if line == "" then Some(if word.Some? then [word.value] else [])
      else if line[0] == ' ' || line[0] == '\t' then Emit(word, Read(line[1..], Plain, None))
      else if line[0] == '\'' then Read(line[1..], Single, Some(Started(word)))
      else if line[0] == '"' then Read(line[1..], Double, Some(Started(word)))
      else if line[0] == '\\' then
        if |line| < 2 || line[1] == '\n' then None
        else Read(line[2..], Plain, Some(Started(word) + [line[1]]))
      else if line[0] in "|&;<>()$`#*?[~\n" then None
      else Read(line[1..], Plain, Some(Started(word) + [line[0]]))
    case Single =>
      if line == "" then None
      else if line[0] == '\'' then Read(line[1..], Plain, word)
      else Read(line[1..], Single, Some(Started(word) + [line[0]]))
    case Double =>
      if line == "" || line[0] == '$' || line[0] == '`' then None
      else if line[0] == '"' then Read(line[1..], Plain, word)
      else if line[0] == '\\' && |line| >= 2 && line[1] in "$`\"\\" then
        Read(line[2..], Double, Some(Started(word) + [line[1]]))
      else Read(line[1..], Double, Some(Started(word) + [line[0]]))
  }

  function Started(word: Option<string>): string {
    match word
    case None => ""
    case Some(text) => text
  }

  function Emit(word: Option<string>, rest: Option<seq<string>>): Option<seq<string>> {
    if rest.None? || word.None? then rest else Some([word.value] + rest.value)
  }

  function Words(line: string): Option<seq<string>> {
    Read(line, Plain, None)
  }

  /** strings.ReplaceAll(arg, "'", "'\"'\"'") */
  function EscapeQuotes(arg: string): string {
    if arg == "" then ""
    else (if arg[0] == '\'' then "'\"'\"'" else [arg[0]]) + EscapeQuotes(arg[1..])
  }

  function Quote(arg: string): string {
    "'" + EscapeQuotes(arg) + "'"
  }

  function Tail(args: seq<string>): string {
    if args == [] then "" else " " + Quote(args[0]) + Tail(args[1..])
  }

  function Line(args: seq<string>): string {
    "kubectl" + Tail(args)
  }

  lemma {:induction false} ReadEscapedQuote(rest: string, word: string)
    ensures Read("'\"'\"'" + rest, Single, Some(word)) == Read(rest, Single, Some(word + "'"))
  {
    var line := "'\"'\"'" + rest;
    assert line[1..] == "\"'\"'" + rest;
    assert line[1..][1..] == "'\"'" + rest;
    assert line[1..][1..][1..] == "\"'" + rest;
    assert line[1..][1..][1..][1..] == "'" + rest;
    assert ("'" + rest)[1..] == rest;
    assert Read("'" + rest, Plain, Some(word + "'")) == Read(rest, Single, Some(word + "'"));
    assert Read("\"'" + rest, Double, Some(word + "'")) == Read("'" + rest, Plain, Some(word + "'"));
    assert Read("'\"'" + rest, Double, Some(word)) == Read("\"'" + rest, Double, Some(word + "'"));
    assert Read("\"'\"'" + rest, Plain, Some(word)) == Read("'\"'" + rest, Double, Some(word));
  }

  lemma ReadQuotedCharacter(c: char, rest: string, word: string)
    requires c != '\''
    ensures Read([c] + rest, Single, Some(word)) == Read(rest, Single, Some(word + [c]))
  {
    assert ([c] + rest)[1..] == rest;
  }

  lemma Regroup(x: string, y: string, z: string)
    ensures (x + y) + z == x + (y + z)
  {
  }

  /** Inside single quotes the escaped argument reads as the argument, any quotes in it included. */
  lemma {:induction false} ReadEscaped(arg: string, rest: string, word: string)
    ensures Read(EscapeQuotes(arg) + ("'" + rest), Single, Some(word)) == Read(rest, Plain, Some(word + arg))
    decreases |arg|
  {
    var end := "'" + rest;
    if arg == "" {
      assert EscapeQuotes(arg) + end == end && end[1..] == rest && word + arg == word;
    } else {
      var piece, inner := if arg[0] == '\'' then "'\"'\"'" else [arg[0]], EscapeQuotes(arg[1..]);
      ReadEscaped(arg[1..], rest, word + [arg[0]]);
      Regroup(piece, inner, end);
      Regroup(word, [arg[0]], arg[1..]);
      assert [arg[0]] + arg[1..] == arg;
      if arg[0] == '\'' {
        ReadEscapedQuote(inner + end, word);
      } else {
        ReadQuotedCharacter(arg[0], inner + end, word);
      }
    }
  }

  lemma {:induction false} ReadTail(args: seq<string>, word: string)
    ensures Read(Tail(args), Plain, Some(word)) == Some([word] + args)
    decreases |args|
  {
    if args == [] {
      assert [word] + args == [word];
    } else {
      var rest := Tail(args[1..]);
      var quoted := EscapeQuotes(args[0]) + ("'" + rest);
      assert Tail(args) == " '" + quoted;
      assert (" '" + quoted)[1..] == "'" + quoted && ("'" + quoted)[1..] == quoted;
      assert Read("'" + quoted, Plain, None) == Read(quoted, Single, Some(""));
      ReadEscaped(args[0], rest, "");
      assert "" + args[0] == args[0];
      ReadTail(args[1..], args[0]);
      assert Read("'" + quoted, Plain, None) == Some([args[0]] + args[1..]);
      assert [word] + ([args[0]] + args[1..]) == [word] + args;
    }
  }

  lemma ReadLetter(c: char, rest: string, word: Option<string>)
    requires 'a' <= c <= 'z'
    ensures Read([c] + rest, Plain, word) == Read(rest, Plain, Some(Started(word) + [c]))
  {
    assert ([c] + rest)[1..] == rest;
  }

  lemma {:induction false} ReadLetters(letters: string, rest: string, word: Option<string>)
    requires letters != "" && forall k :: 0 <= k < |letters| ==> 'a' <= letters[k] <= 'z'
    ensures Read(letters + rest, Plain, word) == Read(rest, Plain, Some(Started(word) + letters))
    decreases |letters|
  {
    var first, more := [letters[0]], letters[1..];
    ReadLetter(letters[0], more + rest, word);
    Regroup(first, more, rest);
    assert first + more == letters;
    if more == "" {
      assert more + rest == rest && first == letters;
    } else {
      ReadLetters(more, rest, Some(Started(word) + first));
      Regroup(Started(word), first, more);
    }
  }

  /** A shell splits the preview into kubectl and exactly the arguments it was built from. */
  lemma PreviewReadsBack(args: seq<string>)
    ensures Words(Line(args)) == Some(["kubectl"] + args)
  {
    ReadLetters("kubectl", Tail(args), None);
    assert "" + "kubectl" == "kubectl";
    ReadTail(args, "kubectl");
  }

  // ----- preview -----

  datatype Target = Logs(container: string, previous: bool) | Events

  function Arguments(context: string, namespace: string, pod: string, target: Target): seq<string> {
    ["--kubeconfig=<explicit-kubeconfig>", "--context=" + context, "--namespace=" + namespace] +
    (match target
     case Logs(container, previous) =>
       ["logs", pod, "--container=" + container, "--tail=500", "--limit-bytes=65536", "--follow=false",
        "--previous=" + if previous then "true" else "false"]
     case Events => ["get", "events", "--field-selector=" + ("involvedObject.kind=Pod,involvedObject.name=" + pod)]) +
    ["--request-timeout=5s"]
  }

  lemma {:induction false} TailConcat(x: seq<string>, y: seq<string>)
    ensures Tail(x + y) == Tail(x) + Tail(y)
  {
    if x == [] {
      assert x + y == y;
    } else {
      TailConcat(x[1..], y);
      assert (x + y)[1..] == x[1..] + y;
      Regroup(" " + Quote(x[0]), Tail(x[1..]), Tail(y));
    }
  }

  lemma LineStep(args: seq<string>, i: nat)
    requires i < |args|
    ensures Line(args[..i + 1]) == Line(args[..i]) + " " + Quote(args[i])
  {
    TailConcat(args[..i], [args[i]]);
    assert args[..i + 1] == args[..i] + [args[i]];
    assert Tail([args[i]]) == " " + Quote(args[i]) + Tail([]);
  }

  method Compose(args: seq<string>) returns (posix: string)
    ensures posix == Line(args)
  {
    posix := "kubectl";
    for i := 0 to |args|
      invariant posix == Line(args[..i])
    {
      posix := posix + " " + Quote(args[i]);
      LineStep(args, i);
    }
    assert args[..|args|] == args;
  }

  /** A context name fit to be shown: short, valid UTF-8, without any control or format character. */
  ghost predicate Printable(context: seq<Byte>, isFormat: S.Format) {
    |context| <= 253 && IsUtf8(context) &&
    forall r :: r in Runes(context) ==> !S.IsControl(r) && !isFormat(r)
  }

  /** The characters that UTF-8 text stands for. */
  function Characters(runes: seq<Scalar>): string {
    if runes == [] then "" else [runes[0] as char] + Characters(runes[1..])
  }

  lemma {:induction false} CountedBytes(s: seq<Byte>, b: Byte)
    ensures b in s <==> CountByte(s, b) > 0
  {
    if s != [] {
      CountedBytes(s[1..], b);
      assert s == [s[0]] + s[1..];
    }
  }

  lemma {:induction false} CountedRunes(runes: seq<Scalar>, r: Scalar)
    ensures r in runes <==> CountRune(runes, r) > 0
  {
    if runes != [] {
      CountedRunes(runes[1..], r);
      assert runes == [runes[0]] + runes[1..];
    }
  }

  lemma AsciiPresence(s: seq<Byte>, b: Byte)
    requires b < 0x80
    ensures b in s <==> b in Runes(s)
  {
    AsciiRunes(s, b);
    CountedBytes(s, b);
    CountedRunes(Runes(s), b);
  }

  /** The guard looks at bytes and at the sanitiser; together they say that the name is printable. */
  lemma GuardMeans(context: seq<Byte>, isFormat: S.Format)
    ensures Printable(context, isFormat) <==>
      |context| <= 253 && S.SafeText(context, 253, isFormat) == context &&
      S.NEWLINE !in context && S.TAB !in context
  {
    S.UnchangedIffSafe(context, 253, isFormat);
    AsciiPresence(context, S.NEWLINE);
    AsciiPresence(context, S.TAB);
    assert S.IsControl(S.NEWLINE) && S.IsControl(S.TAB);
  }

  /** None is the refusal of an unprintable context name. */
  method Preview(context: seq<Byte>, namespace: string, pod: string, target: Target, isFormat: S.Format)
      returns (posix: Option<string>)
    ensures posix.Some? <==> Printable(context, isFormat)
    ensures posix.Some? ==>
      EncodeAll(Runes(context)) == context &&
      Words(posix.value) ==
        Some(["kubectl"] + Arguments(Characters(Runes(context)), namespace, pod, target))
  {
    GuardMeans(context, isFormat);
    var safe, _ := S.SafeTextBounded(context, 253, isFormat);
    if |context| > 253 || safe != context || S.NEWLINE in context || S.TAB in context {
      return None;
    }
    var args := Arguments(Characters(Runes(context)), namespace, pod, target);
    var line := Compose(args);
    PreviewReadsBack(args);
    EncodeOfRunes(context);
    posix := Some(line);
  }
}
