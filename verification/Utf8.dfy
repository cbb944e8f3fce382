/** UTF-8 as section 3 of RFC 3629 defines it, and decoding as a Go range loop does it. */
module Utf8 {

  type Byte = b: int | 0 <= b < 256

  /** Code points other than surrogates. */
  type Scalar = r: int | 0 <= r < 0xD800 || 0xE000 <= r < 0x11_0000

  const REPLACEMENT: Scalar := 0xFFFD

  function Encode(r: Scalar): (bytes: seq<Byte>)
    ensures 1 <= |bytes| <= 4
  {
    if r < 0x80 then
      var b0: Byte := r;
      [b0]
    else if r < 0x800 then [0xC0 + r / 64, 0x80 + r % 64]
    else if r < 0x1_0000 then [0xE0 + r / 4096, 0x80 + r / 64 % 64, 0x80 + r % 64]
    else
      var b0: Byte := 0xF0 + r / 262144;
      [b0, 0x80 + r / 4096 % 64, 0x80 + r / 64 % 64, 0x80 + r % 64]
  }

  function EncodeAll(runes: seq<Scalar>): seq<Byte> {
    if runes == [] then [] else Encode(runes[0]) + EncodeAll(runes[1..])
  }

  ghost predicate IsUtf8(bytes: seq<Byte>) {
    exists runes: seq<Scalar> :: bytes == EncodeAll(runes)
  }

  predicate Continues(b: Byte) {
    0x80 <= b < 0xC0
  }

  /** The range a second byte must lie in, by the first: no overlong form, no surrogate, nothing too large. */
  predicate SecondByte(b0: Byte, b1: Byte) {
    Continues(b1) &&
    (b0 == 0xE0 ==> 0xA0 <= b1) && (b0 == 0xED ==> b1 < 0xA0) &&
    (b0 == 0xF0 ==> 0x90 <= b1) && (b0 == 0xF4 ==> b1 < 0x90)
  }

  /** The number of bytes of the encoding that s starts with, or 0 if it starts with none. */
  function Width(s: seq<Byte>): (n: nat)
    requires s != []
    ensures n <= |s| && n <= 4
  {
    if s[0] < 0x80 then 1
    else if 0xC2 <= s[0] < 0xE0 then if |s| >= 2 && SecondByte(s[0], s[1]) then 2 else 0
    else if 0xE0 <= s[0] < 0xF0 then if |s| >= 3 && SecondByte(s[0], s[1]) && Continues(s[2]) then 3 else 0
    else if 0xF0 <= s[0] < 0xF5 then
      if |s| >= 4 && SecondByte(s[0], s[1]) && Continues(s[2]) && Continues(s[3]) then 4 else 0
    else 0
  }

  /** The next rune and its size; a byte that starts no encoding is one replacement character. */
  function Decode(s: seq<Byte>): (r: (Scalar, nat))
    requires s != []
    ensures 1 <= r.1 <= |s|
  {
    var n := Width(s);
    var b0: int := s[0];
    var b1: int := if n > 1 then s[1] else 0;
    var b2: int := if n > 2 then s[2] else 0;
    var b3: int := if n > 3 then s[3] else 0;
    match n
    case 1 => (b0, 1)
    case 2 => ((b0 - 0xC0) * 64 + (b1 - 0x80), 2)
    case 3 => ((b0 - 0xE0) * 4096 + (b1 - 0x80) * 64 + (b2 - 0x80), 3)
    case 4 => ((b0 - 0xF0) * 262144 + (b1 - 0x80) * 4096 + (b2 - 0x80) * 64 + (b3 - 0x80), 4)
    case _ => (REPLACEMENT, 1)
  }

  function Runes(s: seq<Byte>): seq<Scalar> {
    if s == [] then [] else [Decode(s).0] + Runes(s[Decode(s).1..])
  }

  /** The base-64 digits that the longer forms spread over their bytes. */
  lemma Digits(r: Scalar)
    ensures r == r / 64 * 64 + r % 64
    ensures r / 64 == r / 4096 * 64 + r / 64 % 64
    ensures r / 4096 == r / 262144 * 64 + r / 4096 % 64
  {
  }

  lemma DecodeTwo(r: Scalar, s: seq<Byte>)
    requires 0x80 <= r < 0x800 && Encode(r) <= s
    ensures Decode(s) == (r, 2)
  {
    Digits(r);
    assert s[0] == 0xC0 + r / 64 && s[1] == 0x80 + r % 64;
  }

  lemma DecodeThree(r: Scalar, s: seq<Byte>)
    requires 0x800 <= r < 0x1_0000 && Encode(r) <= s
    ensures Decode(s) == (r, 3)
  {
    Digits(r);
    assert s[0] == 0xE0 + r / 4096 && s[1] == 0x80 + r / 64 % 64 && s[2] == 0x80 + r % 64;
    assert Width(s) == 3;
  }

  lemma DecodeFour(r: Scalar, s: seq<Byte>)
    requires 0x1_0000 <= r && Encode(r) <= s
    ensures Decode(s) == (r, 4)
  {
    Digits(r);
    assert s[0] == 0xF0 + r / 262144 && s[1] == 0x80 + r / 4096 % 64;
    assert s[2] == 0x80 + r / 64 % 64 && s[3] == 0x80 + r % 64;
    assert Width(s) == 4;
  }

  lemma DecodeEncode(r: Scalar, rest: seq<Byte>)
    ensures Decode(Encode(r) + rest) == (r, |Encode(r)|)
    ensures (Encode(r) + rest)[|Encode(r)|..] == rest
  {
    var s := Encode(r) + rest;
    if 0x80 <= r < 0x800 {
      DecodeTwo(r, s);
    } else if 0x800 <= r < 0x1_0000 {
      DecodeThree(r, s);
    } else if 0x1_0000 <= r {
      DecodeFour(r, s);
    }
  }

  lemma AcceptsThree(s: seq<Byte>)
    requires s != [] && Width(s) == 3
    ensures s[..3] == Encode(Decode(s).0)
  {
    var r, b0: int, b1: int := Decode(s).0, s[0], s[1];
    Digits(r);
    assert r / 64 == (b0 - 0xE0) * 64 + (b1 - 0x80) && r / 4096 == b0 - 0xE0;
  }

  lemma AcceptsFour(s: seq<Byte>)
    requires s != [] && Width(s) == 4
    ensures s[..4] == Encode(Decode(s).0)
  {
    var r, b0: int, b1: int, b2: int := Decode(s).0, s[0], s[1], s[2];
    Digits(r);
    assert r / 64 == (b0 - 0xF0) * 4096 + (b1 - 0x80) * 64 + (b2 - 0x80);
    assert r / 4096 == (b0 - 0xF0) * 64 + (b1 - 0x80) && r / 262144 == b0 - 0xF0;
  }

  /** The decoder accepts nothing but encodings: no overlong form, surrogate or number beyond the last. */
  lemma DecodeAcceptsEncodings(s: seq<Byte>)
    requires s != [] && Width(s) > 0
    ensures s[..Width(s)] == Encode(Decode(s).0)
  {
    if Width(s) == 3 {
      AcceptsThree(s);
    } else if Width(s) == 4 {
      AcceptsFour(s);
    }
  }

  lemma StartsWithEncoding(s: seq<Byte>)
    requires s != [] && Width(s) > 0
    ensures exists r: Scalar :: Encode(r) <= s
  {
    DecodeAcceptsEncodings(s);
    assert Encode(Decode(s).0) <= s;
  }

  /** Bytes that start with no encoding give one replacement character, which takes one byte. */
  lemma InvalidByte(s: seq<Byte>)
    requires s != [] && forall r: Scalar :: !(Encode(r) <= s)
    ensures Decode(s) == (0xFFFD, 1)
  {
    if Width(s) > 0 {
      StartsWithEncoding(s);
    }
  }

  lemma {:induction false} RunesOfEncoding(runes: seq<Scalar>)
    ensures Runes(EncodeAll(runes)) == runes
  {
    if runes != [] {
      RunesOfEncoding(runes[1..]);
      DecodeEncode(runes[0], EncodeAll(runes[1..]));
    }
  }

  lemma Associate(x: seq<Byte>, y: seq<Byte>, z: seq<Byte>)
    ensures x + (y + z) == (x + y) + z
  {
  }

  lemma {:induction false} EncodeAllConcat(x: seq<Scalar>, y: seq<Scalar>)
    ensures EncodeAll(x + y) == EncodeAll(x) + EncodeAll(y)
  {
    if x == [] {
      assert x + y == y;
    } else {
      EncodeAllConcat(x[1..], y);
      assert (x + y)[1..] == x[1..] + y && (x + y)[0] == x[0];
      Associate(Encode(x[0]), EncodeAll(x[1..]), EncodeAll(y));
    }
  }

  /** Decoding then encoding gives the bytes back exactly on valid UTF-8. */
  lemma EncodeOfRunes(s: seq<Byte>)
    ensures EncodeAll(Runes(s)) == s <==> IsUtf8(s)
  {
    if runes: seq<Scalar> :| s == EncodeAll(runes) {
      RunesOfEncoding(runes);
    }
  }

  function CountByte(s: seq<Byte>, b: Byte): nat {
    if s == [] then 0 else (if s[0] == b then 1 else 0) + CountByte(s[1..], b)
  }

  function CountRune(runes: seq<Scalar>, r: Scalar): nat {
    if runes == [] then 0 else (if runes[0] == r then 1 else 0) + CountRune(runes[1..], r)
  }

  lemma {:induction false} CountByteMeans(s: seq<Byte>, b: Byte)
    ensures CountByte(s, b) == multiset(s)[b]
  {
    if s != [] {
      CountByteMeans(s[1..], b);
      assert s == [s[0]] + s[1..];
    }
  }

  lemma {:induction false} CountByteConcat(x: seq<Byte>, y: seq<Byte>, b: Byte)
    ensures CountByte(x + y, b) == CountByte(x, b) + CountByte(y, b)
  {
    if x == [] {
      assert x + y == y;
    } else {
      CountByteConcat(x[1..], y, b);
      assert (x + y)[1..] == x[1..] + y;
    }
  }

  /** An ASCII byte always stands for itself: never inside another rune, never lost to an invalid one. */
  lemma {:induction false} AsciiRunes(s: seq<Byte>, b: Byte)
    requires b < 0x80
    ensures CountRune(Runes(s), b) == CountByte(s, b)
    decreases |s|
  {
    if s != [] {
      var n := Decode(s).1;
      AsciiRunes(s[n..], b);
      AsciiHead(s, b);
    }
  }

  lemma AsciiHead(s: seq<Byte>, b: Byte)
    requires s != [] && b < 0x80
    ensures CountByte(s, b) == (if Decode(s).0 == b then 1 else 0) + CountByte(s[Decode(s).1..], b)
  {
    var n := Decode(s).1;
    assert s == [s[0]] + s[1..];
    if n >= 2 {
      assert s[1..] == [s[1]] + s[2..] && CountByte(s[1..], b) == CountByte(s[2..], b);
    }
    if n >= 3 {
      assert s[2..] == [s[2]] + s[3..] && CountByte(s[2..], b) == CountByte(s[3..], b);
    }
    if n >= 4 {
      assert s[3..] == [s[3]] + s[4..] && CountByte(s[3..], b) == CountByte(s[4..], b);
    }
  }
}
