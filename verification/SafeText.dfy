/** The bounded text sanitiser of the diagnostics service, and the Pod log reader built on it. */
module SafeText {
  import opened Utf8

  const MAX_BYTES := 65536
  const MAX_LINES := 500
  const NEWLINE: Byte := 10
  const TAB: Byte := 9

  /** Unicode's Cc. */
  predicate IsControl(r: Scalar) {
    r < 0x20 || 0x7F <= r < 0xA0
  }

  /** Unicode's Cf is a table of the language runtime; all that matters is that it lacks U+FFFD. */
  type Format = f: Scalar -> bool | !f(REPLACEMENT) witness (_ => false)

  predicate IsClean(r: Scalar, isFormat: Format) {
    !((IsControl(r) && r != NEWLINE && r != TAB) || isFormat(r))
  }

  function Replace(r: Scalar, isFormat: Format): Scalar {
    if IsClean(r, isFormat) then r else REPLACEMENT
  }

  function ReplaceAll(runes: seq<Scalar>, isFormat: Format): seq<Scalar> {
    if runes == [] then [] else [Replace(runes[0], isFormat)] + ReplaceAll(runes[1..], isFormat)
  }

  predicate AllClean(runes: seq<Scalar>, isFormat: Format) {
    forall r :: r in runes ==> IsClean(r, isFormat)
  }

  /** The longest prefix whose encoding has room. */
  function Fit(runes: seq<Scalar>, room: nat): seq<Scalar> {
    if runes == [] || |Encode(runes[0])| > room then []
    else [runes[0]] + Fit(runes[1..], room - |Encode(runes[0])|)
  }

  function CutBytes(value: seq<Byte>, limit: nat): seq<Byte> {
    if |value| > limit then value[..limit] else value
  }

  function Cleaned(value: seq<Byte>, limit: nat, isFormat: Format): seq<Scalar> {
    ReplaceAll(Runes(CutBytes(value, limit)), isFormat)
  }

  function SafeText(value: seq<Byte>, limit: nat, isFormat: Format): seq<Byte> {
    EncodeAll(Fit(Cleaned(value, limit, isFormat), limit))
  }

  function Clipped(value: seq<Byte>, limit: nat, isFormat: Format): bool {
    |value| > limit || Fit(Cleaned(value, limit, isFormat), limit) != Cleaned(value, limit, isFormat)
  }

  lemma ReplaceHead(rest: seq<Byte>, isFormat: Format)
    requires rest != []
    ensures ReplaceAll(Runes(rest), isFormat)
         == [Replace(Decode(rest).0, isFormat)] + ReplaceAll(Runes(rest[Decode(rest).1..]), isFormat)
  {
    assert Runes(rest)[1..] == Runes(rest[Decode(rest).1..]);
  }

  lemma EncodeAppend(kept: seq<Scalar>, r: Scalar)
    ensures EncodeAll(kept + [r]) == EncodeAll(kept) + Encode(r)
  {
    EncodeAllConcat(kept, [r]);
    assert EncodeAll([r]) == Encode(r) + EncodeAll([]);
  }

  lemma FitAppend(kept: seq<Scalar>, r: Scalar, after: seq<Scalar>, room: nat)
    requires |Encode(r)| <= room
    ensures kept + Fit([r] + after, room) == (kept + [r]) + Fit(after, room - |Encode(r)|)
    ensures kept + ([r] + after) == (kept + [r]) + after
  {
    assert ([r] + after)[1..] == after;
  }

  /** What has been written is the encoding of kept; what rest still holds completes it, as far as it fits. */
  ghost predicate Progress(text: seq<Byte>, kept: seq<Scalar>, rest: seq<Byte>, cleaned: seq<Scalar>, limit: nat,
                           isFormat: Format) {
    var pending := ReplaceAll(Runes(rest), isFormat);
    && text == EncodeAll(kept) && |text| <= limit
    && kept + pending == cleaned && kept + Fit(pending, limit - |text|) == Fit(cleaned, limit)
  }

  lemma Advance(text: seq<Byte>, kept: seq<Scalar>, rest: seq<Byte>, cleaned: seq<Scalar>, limit: nat, isFormat: Format)
    requires Progress(text, kept, rest, cleaned, limit, isFormat) && rest != []
    requires |text| + |Encode(Replace(Decode(rest).0, isFormat))| <= limit
    ensures var shown := Replace(Decode(rest).0, isFormat);
      Progress(text + Encode(shown), kept + [shown], rest[Decode(rest).1..], cleaned, limit, isFormat)
  {
    var shown := Replace(Decode(rest).0, isFormat);
    ReplaceHead(rest, isFormat);
    FitAppend(kept, shown, ReplaceAll(Runes(rest[Decode(rest).1..]), isFormat), limit - |text|);
    EncodeAppend(kept, shown);
  }

  lemma Stop(text: seq<Byte>, kept: seq<Scalar>, rest: seq<Byte>, cleaned: seq<Scalar>, limit: nat, isFormat: Format)
    requires Progress(text, kept, rest, cleaned, limit, isFormat)
    requires rest != [] ==> |text| + |Encode(Replace(Decode(rest).0, isFormat))| > limit
    ensures text == EncodeAll(Fit(cleaned, limit))
    ensures Fit(cleaned, limit) == cleaned <==> rest == []
  {
    assert kept + [] == kept;
    if rest != [] {
      ReplaceHead(rest, isFormat);
      assert |kept| < |cleaned|;
    }
  }

  method SafeTextBounded(value: seq<Byte>, limit: nat, isFormat: Format) returns (text: seq<Byte>, clipped: bool)
    ensures text == SafeText(value, limit, isFormat)
    ensures clipped == Clipped(value, limit, isFormat)
  {
    clipped := |value| > limit;
    var rest := CutBytes(value, limit);
    text := [];
    ghost var kept: seq<Scalar>, cleaned := [], Cleaned(value, limit, isFormat);
    assert [] + cleaned == cleaned && [] + Fit(cleaned, limit) == Fit(cleaned, limit);
    while rest != []
      invariant clipped == (|value| > limit)
      invariant Progress(text, kept, rest, cleaned, limit, isFormat)
      decreases |rest|
    {
      var (r, size) := Decode(rest);
      var shown := Replace(r, isFormat);
      var piece := Encode(shown);
      if |text| + |piece| > limit {
        Stop(text, kept, rest, cleaned, limit, isFormat);
        return text, true;
      }
      Advance(text, kept, rest, cleaned, limit, isFormat);
      kept := kept + [shown];
      text := text + piece;
      rest := rest[size..];
    }
    Stop(text, kept, rest, cleaned, limit, isFormat);
  }

  // ----- What sanitised text is -----

  lemma {:induction false} ReplaceAllMeans(runes: seq<Scalar>, isFormat: Format)
    ensures AllClean(ReplaceAll(runes, isFormat), isFormat)
    ensures ReplaceAll(runes, isFormat) == runes <==> AllClean(runes, isFormat)
    ensures |ReplaceAll(runes, isFormat)| == |runes|
    ensures forall k :: 0 <= k < |runes| ==> ReplaceAll(runes, isFormat)[k] == Replace(runes[k], isFormat)
  {
    if runes != [] {
      ReplaceAllMeans(runes[1..], isFormat);
      assert runes == [runes[0]] + runes[1..];
    }
  }

  lemma {:induction false} FitMeans(runes: seq<Scalar>, room: nat)
    ensures Fit(runes, room) <= runes && |EncodeAll(Fit(runes, room))| <= room
    ensures Fit(runes, room) == runes <==> |EncodeAll(runes)| <= room
  {
    if runes != [] && |Encode(runes[0])| <= room {
      FitMeans(runes[1..], room - |Encode(runes[0])|);
      assert runes == [runes[0]] + runes[1..];
    }
  }

  /** A rune that a terminal shows or that moves to the next line or tab stop. */
  predicate IsShowable(r: Scalar, isFormat: Format) {
    (r == 9 || r == 10 || 0x20 <= r < 0x7F || 0xA0 <= r) && !isFormat(r)
  }

  /** The output is valid UTF-8, within the limit, and free of format controls and of other controls. */
  lemma OutputIsSafe(value: seq<Byte>, limit: nat, isFormat: Format)
    ensures var text := SafeText(value, limit, isFormat);
      |text| <= limit && IsUtf8(text) && AllClean(Runes(text), isFormat) &&
      forall r :: r in Runes(text) ==> IsShowable(r, isFormat)
  {
    var cleaned := Cleaned(value, limit, isFormat);
    ReplaceAllMeans(Runes(CutBytes(value, limit)), isFormat);
    FitMeans(cleaned, limit);
    RunesOfEncoding(Fit(cleaned, limit));
  }

  /** Text is left alone exactly when it already is all that; so sanitising twice is sanitising once. */
  lemma UnchangedIffSafe(value: seq<Byte>, limit: nat, isFormat: Format)
    ensures SafeText(value, limit, isFormat) == value
       <==> |value| <= limit && IsUtf8(value) && AllClean(Runes(value), isFormat)
    ensures SafeText(value, limit, isFormat) == value ==> !Clipped(value, limit, isFormat)
  {
    OutputIsSafe(value, limit, isFormat);
    if |value| <= limit && IsUtf8(value) && AllClean(Runes(value), isFormat) {
      ReplaceAllMeans(Runes(value), isFormat);
      EncodeOfRunes(value);
      FitMeans(Runes(value), limit);
    }
  }

  lemma SanitisingTwice(value: seq<Byte>, limit: nat, isFormat: Format)
    ensures var text := SafeText(value, limit, isFormat);
      SafeText(text, limit, isFormat) == text && !Clipped(text, limit, isFormat)
  {
    OutputIsSafe(value, limit, isFormat);
    UnchangedIffSafe(SafeText(value, limit, isFormat), limit, isFormat);
  }

  /** Text not reported as clipped is the whole input, rune by rune. */
  lemma UnclippedIsWhole(value: seq<Byte>, limit: nat, isFormat: Format)
    ensures !Clipped(value, limit, isFormat) <==>
      |value| <= limit && Runes(SafeText(value, limit, isFormat)) == ReplaceAll(Runes(value), isFormat)
  {
    RunesOfEncoding(Fit(Cleaned(value, limit, isFormat), limit));
  }

  /** The runes of the bytes, each that is not showable replaced by U+FFFD. */
  ghost predicate AreReplaced(runes: seq<Scalar>, value: seq<Byte>, isFormat: Format) {
    && |runes| == |Runes(value)|
    && forall k :: 0 <= k < |runes| ==>
        runes[k] == if IsShowable(Runes(value)[k], isFormat) then Runes(value)[k] else 0xFFFD
  }

  /** n of the runes have room, and no more of them would. */
  ghost predicate IsLongestFit(runes: seq<Scalar>, limit: nat, n: nat) {
    && n <= |runes| && |EncodeAll(runes[..n])| <= limit
    && forall m :: n < m <= |runes| ==> |EncodeAll(runes[..m])| > limit
  }

  /** The text is as much of the replaced runes as has room. */
  ghost predicate IsKept(text: seq<Byte>, value: seq<Byte>, limit: nat, isFormat: Format) {
    exists runes, n :: AreReplaced(runes, value, isFormat) && IsLongestFit(runes, limit, n) && Runes(text) == runes[..n]
  }

  lemma LongerNeedsMore(x: seq<Scalar>, y: seq<Scalar>)
    requires x <= y
    ensures |EncodeAll(x)| <= |EncodeAll(y)|
  {
    EncodeAllConcat(x, y[|x|..]);
    assert y == x + y[|x|..];
  }

  lemma {:induction false} FitIsLongest(runes: seq<Scalar>, room: nat)
    ensures IsLongestFit(runes, room, |Fit(runes, room)|) && Fit(runes, room) == runes[..|Fit(runes, room)|]
  {
    var n := |Fit(runes, room)|;
    FitMeans(runes, room);
    assert Fit(runes, room) == runes[..n];
    if n < |runes| {
      FitStops(runes, room);
      forall m | n < m <= |runes| ensures |EncodeAll(runes[..m])| > room {
        assert runes[..n + 1] <= runes[..m];
        LongerNeedsMore(runes[..n + 1], runes[..m]);
      }
    }
  }

  lemma {:induction false} FitStops(runes: seq<Scalar>, room: nat)
    requires |Fit(runes, room)| < |runes|
    ensures |EncodeAll(runes[..|Fit(runes, room)| + 1])| > room
  {
    if |Encode(runes[0])| <= room {
      var n := |Fit(runes[1..], room - |Encode(runes[0])|)|;
      FitStops(runes[1..], room - |Encode(runes[0])|);
      assert runes[..n + 2][1..] == runes[1..][..n + 1];
    } else {
      assert EncodeAll(runes[..1]) == Encode(runes[0]) + EncodeAll(runes[..1][1..]);
    }
  }

  /** What is kept comes from the front: the longest fitting part of the first limit bytes, rune by rune. */
  lemma KeepsTheFront(value: seq<Byte>, limit: nat, isFormat: Format)
    ensures IsKept(SafeText(value, limit, isFormat), value[..if |value| > limit then limit else |value|], limit,
                   isFormat)
  {
    var bounded := value[..if |value| > limit then limit else |value|];
    assert bounded == CutBytes(value, limit);
    var runes := ReplaceAll(Runes(bounded), isFormat);
    ReplaceAllMeans(Runes(bounded), isFormat);
    assert AreReplaced(runes, bounded, isFormat);
    FitIsLongest(runes, limit);
    RunesOfEncoding(Fit(runes, limit));
  }

  // ----- Pod logs -----

  lemma {:induction false} ReplaceKeepsNewlines(runes: seq<Scalar>, isFormat: Format)
    requires !isFormat(NEWLINE)
    ensures CountRune(ReplaceAll(runes, isFormat), NEWLINE) == CountRune(runes, NEWLINE)
  {
    if runes != [] {
      ReplaceKeepsNewlines(runes[1..], isFormat);
    }
  }

  lemma {:induction false} CountRunePrefix(x: seq<Scalar>, y: seq<Scalar>, r: Scalar)
    requires x <= y
    ensures CountRune(x, r) <= CountRune(y, r)
  {
    if x != [] {
      assert x[0] == y[0];
      CountRunePrefix(x[1..], y[1..], r);
    }
  }

  /** Sanitising never adds a line. */
  lemma SafeTextNewlines(value: seq<Byte>, limit: nat, isFormat: Format)
    requires !isFormat(NEWLINE) && |value| <= limit
    ensures CountByte(SafeText(value, limit, isFormat), NEWLINE) <= CountByte(value, NEWLINE)
  {
    var cleaned := Cleaned(value, limit, isFormat);
    FitMeans(cleaned, limit);
    RunesOfEncoding(Fit(cleaned, limit));
    AsciiRunes(SafeText(value, limit, isFormat), NEWLINE);
    CountRunePrefix(Fit(cleaned, limit), cleaned, NEWLINE);
    ReplaceKeepsNewlines(Runes(value), isFormat);
    AsciiRunes(value, NEWLINE);
  }

  /** The text up to and including its MAX_LINES-th newline, if it has that many. */
  method CutLines(text: seq<Byte>) returns (shown: seq<Byte>, cut: bool)
    ensures cut <==> CountByte(text, NEWLINE) >= MAX_LINES
    ensures !cut ==> shown == text
    ensures cut ==> shown <= text && CountByte(shown, NEWLINE) == MAX_LINES && shown[|shown| - 1] == NEWLINE
  {
    var count, i := 0, 0;
    while i < |text|
      invariant i <= |text| && count < MAX_LINES
      invariant count == CountByte(text[..i], NEWLINE)
      invariant CountByte(text, NEWLINE) == count + CountByte(text[i..], NEWLINE)
    {
      var (c, size) := Decode(text[i..]);
      AsciiHead(text[i..], NEWLINE);
      assert text[i..][size..] == text[i + size..];
      assert text[..i + size] == text[..i] + text[i..][..size];
      CountByteConcat(text[..i], text[i..][..size], NEWLINE);
      CountByteConcat(text[i..][..size], text[i + size..], NEWLINE);
      assert text[i..][..size] + text[i + size..] == text[i..];
      if c == NEWLINE {
        count := count + 1;
        assert size == 1 && text[i] == NEWLINE;
        if count == MAX_LINES {
          return text[..i + 1], true;
        }
      }
      i := i + size;
    }
    assert text[..i] == text;
    return text, false;
  }

  /** How many of the delivered bytes are shown: the first 65,536, and of those the first 500 lines. */
  ghost predicate IsShown(data: seq<Byte>, m: nat) {
    var most := if |data| > 65536 then 65536 else |data|;
    && m <= most
    && (CountByte(data[..most], 10) < 500 ==> m == most)
    && (CountByte(data[..most], 10) >= 500 ==> CountByte(data[..m], 10) == 500 && m > 0 && data[m - 1] == 10)
  }

  lemma ShownIsFront(data: seq<Byte>, shown: seq<Byte>, cut: bool)
    requires var bounded := CutBytes(data, MAX_BYTES);
      && (cut <==> CountByte(bounded, NEWLINE) >= MAX_LINES) && (!cut ==> shown == bounded)
      && (cut ==> shown <= bounded && CountByte(shown, NEWLINE) == MAX_LINES && shown[|shown| - 1] == NEWLINE)
    ensures |shown| <= |data| && |shown| <= 65536 && shown == data[..|shown|] && IsShown(data, |shown|)
  {
    var most := if |data| > 65536 then 65536 else |data|;
    assert data[..most] == CutBytes(data, MAX_BYTES);
    assert shown == data[..most][..|shown|] == data[..|shown|];
  }

  /** data is what the reader delivered: at most one byte more than the limit. */
  method ReadLogs(data: seq<Byte>, isFormat: Format) returns (text: seq<Byte>, truncated: bool)
    requires !isFormat(NEWLINE)
    ensures |text| <= 65536 && IsUtf8(text) && (forall r :: r in Runes(text) ==> IsShowable(r, isFormat))
    ensures CountByte(text, 10) <= 500
    ensures exists m: nat :: IsShown(data, m) && IsKept(text, data[..m], 65536, isFormat)
    ensures !truncated <==>
      |data| < 65536 && CountByte(data, 10) < 500 && !Clipped(data, 65536, isFormat)
    ensures !truncated ==> AreReplaced(Runes(text), data, isFormat)
  {
    truncated := |data| >= MAX_BYTES;
    var bounded := CutBytes(data, MAX_BYTES);
    var shown, cut := CutLines(bounded);
    ShownIsFront(data, shown, cut);
    truncated := truncated || cut;
    var clipped;
    text, clipped := SafeTextBounded(shown, MAX_BYTES, isFormat);
    truncated := truncated || clipped;
    OutputIsSafe(shown, MAX_BYTES, isFormat);
    SafeTextNewlines(shown, MAX_BYTES, isFormat);
    UnclippedIsWhole(shown, MAX_BYTES, isFormat);
    KeepsTheFront(shown, MAX_BYTES, isFormat);
    assert shown[..|shown|] == shown;
    assert IsKept(text, data[..|shown|], 65536, isFormat);
    ReplaceAllMeans(Runes(data), isFormat);
  }
}
