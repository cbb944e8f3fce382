/** Paths of tree nodes as text: how they are written, and a reader that recovers the steps from the text. */
module YamlPaths {
  import opened Wrappers

  /** One UTF-16 code unit; JavaScript strings are sequences of them, with or without lone surrogates. */
  type Unit = x: int | 0 <= x < 0x10000

  type Text = seq<Unit>

  datatype Step = Key(name: Text) | Index(position: nat)

  const QUOTE: Unit := '"' as int
  const BACKSLASH: Unit := '\\' as int
  const DOT: Unit := '.' as int
  const OPEN: Unit := '[' as int
  const CLOSE: Unit := ']' as int
  const COLON: Unit := ':' as int
  const LETTER_U: Unit := 'u' as int

  // ----- Numbers -----

  predicate IsDigit(u: Unit) {
    '0' as int <= u <= '9' as int
  }

  function Decimal(n: nat): Text {
    var digit: Unit := '0' as int + n % 10;
    if n < 10 then [digit] else Decimal(n / 10) + [digit]
  }

  function NumberOf(digits: Text): nat
    requires forall k :: 0 <= k < |digits| ==> IsDigit(digits[k])
  {
    if digits == [] then 0
    else
      assert IsDigit(digits[|digits| - 1]);
      NumberOf(digits[..|digits| - 1]) * 10 + (digits[|digits| - 1] - '0' as int)
  }

  lemma {:induction false} DecimalReadsBack(n: nat)
    ensures Decimal(n) != [] && forall k :: 0 <= k < |Decimal(n)| ==> IsDigit(Decimal(n)[k])
    ensures NumberOf(Decimal(n)) == n
  {
    if n >= 10 {
      DecimalReadsBack(n / 10);
      assert Decimal(n)[..|Decimal(n)| - 1] == Decimal(n / 10);
    } else {
      assert Decimal(n)[..0] == [];
    }
  }

  function HexDigit(n: int): Unit
    requires 0 <= n < 16
  {
    if n < 10 then '0' as int + n else 'a' as int + (n - 10)
  }

  function HexValue(u: Unit): Option<int> {
    if IsDigit(u) then Some(u - '0' as int)
    else if 'a' as int <= u <= 'f' as int then Some(u - 'a' as int + 10)
    else if 'A' as int <= u <= 'F' as int then Some(u - 'A' as int + 10)
    else None
  }

  lemma HexReadsBack(n: int)
    requires 0 <= n < 16
    ensures HexValue(HexDigit(n)) == Some(n)
  {
  }

  // ----- Quoted keys: JSON.stringify, and the reader of section 7 of RFC 8259 -----

  predicate IsLeading(u: Unit) {
    0xD800 <= u <= 0xDBFF
  }

  predicate IsTrailing(u: Unit) {
    0xDC00 <= u <= 0xDFFF
  }

  /** The letter after the backslash, for the units that have a short escape. */
  function ShortEscape(u: Unit): Option<Unit> {
    if u == QUOTE then Some(QUOTE)
    else if u == BACKSLASH then Some(BACKSLASH)
    else if u == 8 then Some('b' as int)
    else if u == 12 then Some('f' as int)
    else if u == 10 then Some('n' as int)
    else if u == 13 then Some('r' as int)
    else if u == 9 then Some('t' as int)
    else None
  }

  function LongEscape(u: Unit): Text {
    [BACKSLASH, LETTER_U, HexDigit(u / 4096), HexDigit(u / 256 % 16), HexDigit(u / 16 % 16), HexDigit(u % 16)]
  }

  /** One unit that is not half of a surrogate pair. */
  function EscapeUnit(u: Unit): Text {
    if ShortEscape(u).Some? then [BACKSLASH, ShortEscape(u).value]
    else if u < 0x20 || IsLeading(u) || IsTrailing(u) then LongEscape(u)
    else [u]
  }

  function Escape(text: Text): Text {
    if text == [] then []
    else if IsLeading(text[0]) && |text| > 1 && IsTrailing(text[1]) then text[..2] + Escape(text[2..])
    else EscapeUnit(text[0]) + Escape(text[1..])
  }

  function ShortMeaning(letter: Unit): Option<Unit> {
    if letter == QUOTE || letter == BACKSLASH || letter == '/' as int then Some(letter)
    else if letter == 'b' as int then Some(8)
    else if letter == 'f' as int then Some(12)
    else if letter == 'n' as int then Some(10)
    else if letter == 'r' as int then Some(13)
    else if letter == 't' as int then Some(9)
    else None
  }

  function HexMeaning(t: Text): Option<Unit>
    requires |t| >= 4
  {
    match (HexValue(t[0]), HexValue(t[1]), HexValue(t[2]), HexValue(t[3]))
    case (Some(a), Some(b), Some(c), Some(d)) =>
      var u := ((a * 16 + b) * 16 + c) * 16 + d;
      if 0 <= u < 0x10000 then Some(u) else None
    case _ => None
  }

  /** One character of a quoted string, and how many units it took. */
  function ReadCharacter(t: Text): (r: Option<(Unit, nat)>)
    ensures r.Some? ==> 0 < r.value.1 <= |t|
  {
    if t == [] || t[0] == QUOTE || t[0] < 0x20 then None
    else if t[0] != BACKSLASH then Some((t[0], 1))
    else if |t| < 2 then None
    else if t[1] == LETTER_U then
      if |t| < 6 then None
      else match HexMeaning(t[2..6])
        case Some(u) => Some((u, 6))
        case None => None
    else match ShortMeaning(t[1])
      case Some(u) => Some((u, 2))
      case None => None
  }

  /** The characters up to the closing quote, and what follows it. */
  function ReadQuoted(t: Text): (r: Option<(Text, Text)>)
    ensures r.Some? ==> |r.value.1| < |t|
    decreases |t|
  {
    if t != [] && t[0] == QUOTE then Some(([], t[1..]))
    else match ReadCharacter(t)
      case None => None
      case Some((u, taken)) =>
        match ReadQuoted(t[taken..])
        case None => None
        case Some((rest, after)) => Some(([u] + rest, after))
  }

  lemma ShortReadsBack(u: Unit)
    requires ShortEscape(u).Some?
    ensures ShortMeaning(ShortEscape(u).value) == Some(u) && ShortEscape(u).value != LETTER_U
  {
  }

  lemma HexDigitsMean(a: int, b: int, c: int, d: int)
    requires 0 <= a < 16 && 0 <= b < 16 && 0 <= c < 16 && 0 <= d < 16
    ensures HexMeaning([HexDigit(a), HexDigit(b), HexDigit(c), HexDigit(d)]) == Some(((a * 16 + b) * 16 + c) * 16 + d)
  {
    HexReadsBack(a);
    HexReadsBack(b);
    HexReadsBack(c);
    HexReadsBack(d);
  }

  lemma HexDigitsOf(u: Unit)
    ensures ((u / 4096 * 16 + u / 256 % 16) * 16 + u / 16 % 16) * 16 + u % 16 == u
  {
    assert u / 256 == u / 4096 * 16 + u / 256 % 16;
    assert u / 16 == u / 256 * 16 + u / 16 % 16;
  }

  lemma LongReadsBack(u: Unit, tail: Text)
    ensures ReadCharacter(LongEscape(u) + tail) == Some((u, 6))
  {
    HexDigitsMean(u / 4096, u / 256 % 16, u / 16 % 16, u % 16);
    HexDigitsOf(u);
    assert (LongEscape(u) + tail)[2..6] ==
      [HexDigit(u / 4096), HexDigit(u / 256 % 16), HexDigit(u / 16 % 16), HexDigit(u % 16)];
  }

  lemma UnitReadsBack(u: Unit, tail: Text)
    ensures ReadCharacter(EscapeUnit(u) + tail) == Some((u, |EscapeUnit(u)|))
    ensures EscapeUnit(u) != [] && EscapeUnit(u)[0] != QUOTE
  {
    if ShortEscape(u).Some? {
      ShortReadsBack(u);
    } else if u < 0x20 || IsLeading(u) || IsTrailing(u) {
      LongReadsBack(u, tail);
    }
  }

  lemma ReadQuotedStep(piece: Text, u: Unit, t: Text, text: Text, tail: Text)
    requires piece != [] && piece[0] != QUOTE && ReadCharacter(piece + t) == Some((u, |piece|))
    requires ReadQuoted(t) == Some((text, tail))
    ensures ReadQuoted(piece + t) == Some(([u] + text, tail))
  {
    assert (piece + t)[|piece|..] == t;
  }

  lemma ReadQuotedPair(leading: Unit, trailing: Unit, t: Text, text: Text, tail: Text)
    requires IsLeading(leading) && IsTrailing(trailing) && ReadQuoted(t) == Some((text, tail))
    ensures ReadQuoted([leading, trailing] + t) == Some(([leading, trailing] + text, tail))
  {
    ReadQuotedStep([trailing], trailing, t, text, tail);
    ReadQuotedStep([leading], leading, [trailing] + t, [trailing] + text, tail);
    Associate([leading], [trailing], t);
    Associate([leading], [trailing], text);
    assert [leading] + [trailing] == [leading, trailing];
  }

  lemma Associate(a: Text, b: Text, c: Text)
    ensures (a + b) + c == a + (b + c)
  {
  }

  lemma QuotedPairReadsBack(text: Text, end: Text, tail: Text)
    requires |text| > 1 && IsLeading(text[0]) && IsTrailing(text[1])
    requires ReadQuoted(Escape(text[2..]) + end) == Some((text[2..], tail))
    ensures ReadQuoted(Escape(text) + end) == Some((text, tail))
  {
    ReadQuotedPair(text[0], text[1], Escape(text[2..]) + end, text[2..], tail);
    Associate(text[..2], Escape(text[2..]), end);
    assert text[..2] == [text[0], text[1]] && text == text[..2] + text[2..];
  }

  lemma QuotedUnitReadsBack(text: Text, end: Text, tail: Text)
    requires text != [] && !(IsLeading(text[0]) && |text| > 1 && IsTrailing(text[1]))
    requires ReadQuoted(Escape(text[1..]) + end) == Some((text[1..], tail))
    requires EscapeUnit(text[0]) != [] && EscapeUnit(text[0])[0] != QUOTE
    requires ReadCharacter(EscapeUnit(text[0]) + (Escape(text[1..]) + end)) == Some((text[0], |EscapeUnit(text[0])|))
    ensures ReadQuoted(Escape(text) + end) == Some((text, tail))
  {
    var piece, rest := EscapeUnit(text[0]), Escape(text[1..]);
    ReadQuotedStep(piece, text[0], rest + end, text[1..], tail);
    Associate(piece, rest, end);
    assert text == [text[0]] + text[1..];
  }

  /** Any text, quoted and followed by anything, is read back exactly. */
  lemma {:induction false} QuotedReadsBack(text: Text, tail: Text)
    ensures ReadQuoted(Escape(text) + ([QUOTE] + tail)) == Some((text, tail))
    decreases |text|
  {
    var end := [QUOTE] + tail;
    if text == [] {
      assert Escape(text) + end == end && end[1..] == tail;
    } else if IsLeading(text[0]) && |text| > 1 && IsTrailing(text[1]) {
      QuotedReadsBack(text[2..], tail);
      QuotedPairReadsBack(text, end, tail);
    } else {
      QuotedReadsBack(text[1..], tail);
      UnitReadsBack(text[0], Escape(text[1..]) + end);
      QuotedUnitReadsBack(text, end, tail);
    }
  }

  // ----- Paths -----

  predicate IsWord(u: Unit) {
    'a' as int <= u <= 'z' as int || 'A' as int <= u <= 'Z' as int || u == '_' as int || IsDigit(u)
  }

  /** The regular expression for keys that are written without quotes. */
  predicate IsSimple(key: Text) {
    key != [] && !IsDigit(key[0]) && forall k :: 0 <= k < |key| ==> IsWord(key[k])
  }

  function StepText(step: Step): Text {
    match step
    case Index(position) => [OPEN] + Decimal(position) + [CLOSE]
    case Key(name) => if IsSimple(name) then [DOT] + name else [OPEN, QUOTE] + Escape(name) + [QUOTE, CLOSE]
  }

  /** The path of a child, from the path of its parent. */
  function ChildYamlPath(parentPath: Text, step: Step): Text {
    parentPath + StepText(step)
  }

  function PathText(steps: seq<Step>): Text {
    if steps == [] then ['$' as int] else ChildYamlPath(PathText(steps[..|steps| - 1]), steps[|steps| - 1])
  }

  // ----- Reading a path -----

  /** How many units at the front satisfy p. */
  function Span(t: Text, p: Unit -> bool): (n: nat)
    ensures n <= |t| && (forall k :: 0 <= k < n ==> p(t[k])) && (n < |t| ==> !p(t[n]))
  {
    if t == [] || !p(t[0]) then 0
    else
      var n := Span(t[1..], p);
      assert forall k :: 1 <= k <= n ==> t[k] == t[1..][k - 1];
      n + 1
  }

  function ReadStep(t: Text): (r: Option<(Step, Text)>)
    ensures r.Some? ==> |r.value.1| < |t|
  {
    if t != [] && t[0] == DOT then
      var n := Span(t[1..], IsWord);
      Some((Key(t[1..][..n]), t[1..][n..]))
    else if |t| > 1 && t[0] == OPEN && t[1] == QUOTE then
      match ReadQuoted(t[2..])
      case Some((name, after)) => if after != [] && after[0] == CLOSE then Some((Key(name), after[1..])) else None
      case None => None
    else if t != [] && t[0] == OPEN then
      var n := Span(t[1..], IsDigit);
      var after := t[1..][n..];
      if n > 0 && after != [] && after[0] == CLOSE then Some((Index(NumberOf(t[1..][..n])), after[1..])) else None
    else None
  }

  function ReadSteps(t: Text): Option<seq<Step>>
    decreases |t|
  {
    if t == [] then Some([])
    else match ReadStep(t)
      case None => None
      case Some((step, after)) =>
        match ReadSteps(after)
        case None => None
        case Some(rest) => Some([step] + rest)
  }

  function ReadPath(t: Text): Option<seq<Step>> {
    if t != [] && t[0] == '$' as int then ReadSteps(t[1..]) else None
  }

  /** Where a step can end: at the end of the text, or where the next step begins. */
  predicate EndsStep(t: Text) {
    t == [] || t[0] == DOT || t[0] == OPEN
  }

  lemma SpanIs(a: Text, b: Text, p: Unit -> bool)
    requires (forall k :: 0 <= k < |a| ==> p(a[k])) && (b != [] ==> !p(b[0]))
    ensures Span(a + b, p) == |a|
  {
    assert forall k :: 0 <= k < |a| ==> p((a + b)[k]);
    assert b != [] ==> !p((a + b)[|a|]);
  }

  lemma SimpleKeyReadsBack(name: Text, tail: Text)
    requires IsSimple(name) && EndsStep(tail)
    ensures ReadStep([DOT] + name + tail) == Some((Key(name), tail))
  {
    var t := [DOT] + name + tail;
    assert t[1..] == name + tail;
    SpanIs(name, tail, IsWord);
  }

  lemma QuotedStep(quoted: Text, name: Text, tail: Text)
    requires ReadQuoted(quoted + ([QUOTE] + ([CLOSE] + tail))) == Some((name, [CLOSE] + tail))
    ensures ReadStep([OPEN, QUOTE] + quoted + [QUOTE, CLOSE] + tail) == Some((Key(name), tail))
  {
    var t := [OPEN, QUOTE] + quoted + [QUOTE, CLOSE] + tail;
    assert t[2..] == quoted + ([QUOTE] + ([CLOSE] + tail));
  }

  lemma QuotedKeyReadsBack(name: Text, tail: Text)
    ensures ReadStep([OPEN, QUOTE] + Escape(name) + [QUOTE, CLOSE] + tail) == Some((Key(name), tail))
  {
    QuotedReadsBack(name, [CLOSE] + tail);
    QuotedStep(Escape(name), name, tail);
  }

  lemma IndexReadsBack(position: nat, tail: Text)
    ensures ReadStep(StepText(Index(position)) + tail) == Some((Index(position), tail))
  {
    var t, digits := StepText(Index(position)) + tail, Decimal(position);
    DecimalReadsBack(position);
    assert t[1..] == digits + ([CLOSE] + tail);
    SpanIs(digits, [CLOSE] + tail, IsDigit);
  }

  lemma StepReadsBack(step: Step, tail: Text)
    requires EndsStep(tail)
    ensures ReadStep(StepText(step) + tail) == Some((step, tail))
    ensures EndsStep(StepText(step) + tail)
  {
    match step
    case Key(name) => if IsSimple(name) { SimpleKeyReadsBack(name, tail); } else { QuotedKeyReadsBack(name, tail); }
    case Index(position) => IndexReadsBack(position, tail);
  }

  lemma ReadStepsCons(t: Text, step: Step, tail: Text, after: seq<Step>)
    requires ReadStep(t) == Some((step, tail)) && ReadSteps(tail) == Some(after)
    ensures ReadSteps(t) == Some([step] + after)
  {
  }

  lemma LastStepReadsBack(steps: seq<Step>, tail: Text, after: seq<Step>) returns (last: Text)
    requires steps != [] && EndsStep(tail) && ReadSteps(tail) == Some(after)
    ensures EndsStep(last) && ReadSteps(last) == Some([steps[|steps| - 1]] + after)
    ensures PathText(steps) + tail == PathText(steps[..|steps| - 1]) + last
  {
    var n := |steps| - 1;
    last := StepText(steps[n]) + tail;
    StepReadsBack(steps[n], tail);
    ReadStepsCons(last, steps[n], tail, after);
    Associate(PathText(steps[..n]), StepText(steps[n]), tail);
  }

  lemma RegroupSteps(steps: seq<Step>, after: seq<Step>)
    requires steps != []
    ensures steps[..|steps| - 1] + ([steps[|steps| - 1]] + after) == steps + after
  {
  }

  lemma {:induction false} StepsReadBack(steps: seq<Step>, tail: Text, after: seq<Step>)
    requires EndsStep(tail) && ReadSteps(tail) == Some(after)
    ensures ReadPath(PathText(steps) + tail) == Some(steps + after)
    decreases |steps|
  {
    if steps == [] {
      RootReadsBack(tail, after);
    } else {
      var n := |steps| - 1;
      var last := LastStepReadsBack(steps, tail, after);
      StepsReadBack(steps[..n], last, [steps[n]] + after);
      RegroupSteps(steps, after);
    }
  }

  lemma RootReadsBack(tail: Text, after: seq<Step>)
    requires ReadSteps(tail) == Some(after)
    ensures ReadPath(PathText([]) + tail) == Some([] + after)
  {
    assert (PathText([]) + tail)[1..] == tail && [] + after == after;
  }

  /** A path is read back as the steps it was made of, so different steps have different paths. */
  lemma PathReadsBack(steps: seq<Step>)
    ensures ReadPath(PathText(steps)) == Some(steps)
  {
    StepsReadBack(steps, [], []);
    assert PathText(steps) + [] == PathText(steps) && steps + [] == steps;
  }
}
