/**
 UTF-8 as Python's strict codec implements it, that is, RFC 3629: no surrogates, no overlong
 forms, nothing above U+10FFFF. Python text may hold lone surrogates, which cannot be encoded.
 */
module Utf8 {
  import opened Bytes
  import opened Results

  type CodePoint = c: int | 0 <= c <= 0x10FFFF
  type Text = seq<CodePoint>

  predicate IsScalar(c: CodePoint) {
    c < 0xD800 || 0xDFFF < c
  }

  predicate Encodable(s: Text) {
    forall i :: 0 <= i < |s| ==> IsScalar(s[i])
  }

  /** Section 3 of RFC 3629. */
  function EncodeChar(c: CodePoint): (b: Bytes)
    ensures 1 <= |b| <= 4
  {
    if c < 0x80 then [c]
    else if c < 0x800 then [0xC0 + c / 0x40, 0x80 + c % 0x40]
    else if c < 0x1_0000 then [0xE0 + c / 0x1000, 0x80 + c / 0x40 % 0x40, 0x80 + c % 0x40]
    else [0xF0 + c / 0x4_0000, 0x80 + c / 0x1000 % 0x40, 0x80 + c / 0x40 % 0x40, 0x80 + c % 0x40]
  }

  function Encode(s: Text): Bytes {
    if s == [] then [] else EncodeChar(s[0]) + Encode(s[1..])
  }

  predicate IsTail(x: Byte) {
    0x80 <= x <= 0xBF
  }

  /** The first code point of `b` and its length, by the grammar of section 4 of RFC 3629. */
  function DecodeChar(b: Bytes): (r: Option<(CodePoint, nat)>)
    requires b != []
    ensures r.Some? ==> 1 <= r.value.1 <= |b|
  {
    var b0 := b[0];
    if b0 < 0x80 then Some((b0, 1))
    else if 0xC2 <= b0 <= 0xDF && |b| >= 2 && IsTail(b[1]) then
      Some((AppendBits(b0, 0xC0, b[1]), 2))
    else if 0xE0 <= b0 <= 0xEF && |b| >= 3 && IsTail(b[1]) && IsTail(b[2])
            && (b0 == 0xE0 ==> 0xA0 <= b[1]) && (b0 == 0xED ==> b[1] <= 0x9F) then
      Some((AppendBits(AppendBits(b0, 0xE0, b[1]), 0, b[2]), 3))
    else if 0xF0 <= b0 <= 0xF4 && |b| >= 4 && IsTail(b[1]) && IsTail(b[2]) && IsTail(b[3])
            && (b0 == 0xF0 ==> 0x90 <= b[1]) && (b0 == 0xF4 ==> b[1] <= 0x8F) then
      Some((AppendBits(AppendBits(AppendBits(b0, 0xF0, b[1]), 0, b[2]), 0, b[3]), 4))
    else None
  }

  /** Appends the six payload bits of a continuation byte to what the bytes before it gave. */
  function AppendBits(prefix: int, marker: int, tail: int): int {
    (prefix - marker) * 0x40 + (tail - 0x80)
  }

  function Decode(b: Bytes): Option<Text> {
    if b == [] then Some([])
    else
      match DecodeChar(b)
      case None => None
      case Some((c, n)) =>
        match Decode(b[n..])
        case None => None
        case Some(rest) => Some([c] + rest)
  }

  lemma DecodeEncodeChar(c: CodePoint, rest: Bytes)
    requires IsScalar(c)
    ensures DecodeChar(EncodeChar(c) + rest) == Some((c, |EncodeChar(c)|))
  {
    if c < 0x80 {
    } else if c < 0x800 {
      DecodeTwo(c, c / 0x40, c % 0x40, rest);
    } else if c < 0x1_0000 {
      assert c / 0x1000 == c / 0x40 / 0x40;
      DecodeThree(c, c / 0x1000, c / 0x40 % 0x40, c % 0x40, rest);
    } else {
      assert c / 0x1000 == c / 0x40 / 0x40 && c / 0x4_0000 == c / 0x1000 / 0x40;
      DecodeFour(c, c / 0x4_0000, c / 0x1000 % 0x40, c / 0x40 % 0x40, c % 0x40, rest);
    }
    hide DecodeChar;
  }

  lemma DecodeTwo(c: CodePoint, x: nat, y: nat, rest: Bytes)
    requires 0x80 <= c < 0x800 && y < 0x40 && c == x * 0x40 + y
    ensures DecodeChar([0xC0 + x, 0x80 + y] + rest) == Some((c, 2))
  {
  }

  lemma DecodeThree(c: CodePoint, x: nat, y: nat, z: nat, rest: Bytes)
    requires 0x800 <= c < 0x1_0000 && IsScalar(c) && y < 0x40 && z < 0x40 && c == x * 0x1000 + y * 0x40 + z
    ensures DecodeChar([0xE0 + x, 0x80 + y, 0x80 + z] + rest) == Some((c, 3))
  {
  }

  lemma DecodeFour(c: CodePoint, w: nat, x: nat, y: nat, z: nat, rest: Bytes)
    requires 0x1_0000 <= c && x < 0x40 && y < 0x40 && z < 0x40 && c == w * 0x4_0000 + x * 0x1000 + y * 0x40 + z
    ensures DecodeChar([0xF0 + w, 0x80 + x, 0x80 + y, 0x80 + z] + rest) == Some((c, 4))
  {
  }

  /** The six-bit digits of a code point, the first one being whatever is left. */
  lemma Digits(c: nat, w: nat, x: nat, y: nat, z: nat)
    requires x < 0x40 && y < 0x40 && z < 0x40 && c == w * 0x4_0000 + x * 0x1000 + y * 0x40 + z
    ensures c / 0x4_0000 == w && c / 0x1000 % 0x40 == x && c / 0x40 % 0x40 == y && c % 0x40 == z
    ensures c / 0x1000 == w * 0x40 + x && c / 0x40 == w * 0x1000 + x * 0x40 + y
  {
    assert c / 0x40 == w * 0x1000 + x * 0x40 + y;
    assert c / 0x1000 == w * 0x40 + x;
  }

  lemma EncodeDecodeChar(b: Bytes)
    requires b != [] && DecodeChar(b).Some?
    ensures var (c, n) := DecodeChar(b).value; IsScalar(c) && EncodeChar(c) == b[..n]
  {
    var n := DecodeChar(b).value.1;
    if n == 2 {
      TwoBytes(b[0], b[1]);
    } else if n == 3 {
      ThreeBytes(b[0], b[1], b[2]);
    } else if n == 4 {
      FourBytes(b[0], b[1], b[2], b[3]);
    }
    hide EncodeChar, AppendBits;
    assert n == 2 ==> b[..n] == [b[0], b[1]];
    assert n == 3 ==> b[..n] == [b[0], b[1], b[2]];
    assert n == 4 ==> b[..n] == [b[0], b[1], b[2], b[3]];
    assert n == 1 ==> b[..n] == [b[0]] == EncodeChar(b[0]) by {
      if n == 1 {
        OneByte(b[0]);
      }
    }
  }

  lemma OneByte(b0: Byte)
    requires b0 < 0x80
    ensures EncodeChar(b0) == [b0]
  {
  }

  lemma TwoBytes(b0: Byte, b1: Byte)
    requires 0xC2 <= b0 <= 0xDF && IsTail(b1)
    ensures var c := AppendBits(b0, 0xC0, b1);
            0 <= c <= 0x10FFFF && IsScalar(c) && EncodeChar(c) == [b0, b1]
  {
    Digits(AppendBits(b0, 0xC0, b1), 0, 0, b0 - 0xC0, b1 - 0x80);
  }

  lemma ThreeBytes(b0: Byte, b1: Byte, b2: Byte)
    requires 0xE0 <= b0 <= 0xEF && IsTail(b1) && IsTail(b2)
    requires (b0 == 0xE0 ==> 0xA0 <= b1) && (b0 == 0xED ==> b1 <= 0x9F)
    ensures var c := AppendBits(AppendBits(b0, 0xE0, b1), 0, b2);
            0 <= c <= 0x10FFFF && IsScalar(c) && EncodeChar(c) == [b0, b1, b2]
  {
    EncodeThree(AppendBits(AppendBits(b0, 0xE0, b1), 0, b2), b0 - 0xE0, b1 - 0x80, b2 - 0x80);
    hide EncodeChar;
  }

  lemma EncodeThree(c: nat, x: nat, y: nat, z: nat)
    requires 0x800 <= c < 0x1_0000 && x < 0x10 && y < 0x40 && z < 0x40 && c == x * 0x1000 + y * 0x40 + z
    ensures EncodeChar(c) == [0xE0 + x, 0x80 + y, 0x80 + z]
  {
    Digits(c, 0, x, y, z);
  }

  lemma FourBytes(b0: Byte, b1: Byte, b2: Byte, b3: Byte)
    requires 0xF0 <= b0 <= 0xF4 && IsTail(b1) && IsTail(b2) && IsTail(b3)
    requires (b0 == 0xF0 ==> 0x90 <= b1) && (b0 == 0xF4 ==> b1 <= 0x8F)
    ensures var c := AppendBits(AppendBits(AppendBits(b0, 0xF0, b1), 0, b2), 0, b3);
            0x1_0000 <= c <= 0x10FFFF && EncodeChar(c) == [b0, b1, b2, b3]
  {
    EncodeFour(AppendBits(AppendBits(AppendBits(b0, 0xF0, b1), 0, b2), 0, b3), b0 - 0xF0, b1 - 0x80, b2 - 0x80, b3 - 0x80);
    hide EncodeChar;
  }

  lemma EncodeFour(c: nat, w: nat, x: nat, y: nat, z: nat)
    requires 0x1_0000 <= c <= 0x10FFFF && c == w * 0x4_0000 + x * 0x1000 + y * 0x40 + z
    requires x < 0x40 && y < 0x40 && z < 0x40
    ensures w <= 4 && EncodeChar(c) == [0xF0 + w, 0x80 + x, 0x80 + y, 0x80 + z]
  {
    Digits(c, w, x, y, z);
  }

  lemma {:induction false} DecodeEncode(s: Text)
    requires Encodable(s)
    ensures Decode(Encode(s)) == Some(s)
  {
    if s == [] {
    } else {
      DecodeEncodeChar(s[0], Encode(s[1..]));
      hide DecodeChar, EncodeChar;
      DecodeEncode(s[1..]);
      assert Encode(s)[|EncodeChar(s[0])|..] == Encode(s[1..]);
      assert [s[0]] + s[1..] == s;
    }
  }

  lemma {:induction false} EncodeDecode(b: Bytes)
    requires Decode(b).Some?
    ensures Encodable(Decode(b).value) && Encode(Decode(b).value) == b
  {
    if b == [] {
    } else {
      DecodeHead(b);
      hide *;
      var (c, n) := DecodeChar(b).value;
      EncodeDecodeChar(b);
      EncodeDecode(b[n..]);
      EncodeCons(c, Decode(b[n..]).value);
      assert b == b[..n] + b[n..];
    }
  }

  lemma DecodeHead(b: Bytes)
    requires b != [] && Decode(b).Some?
    ensures DecodeChar(b).Some? && Decode(b[DecodeChar(b).value.1..]).Some?
    ensures Decode(b).value == [DecodeChar(b).value.0] + Decode(b[DecodeChar(b).value.1..]).value
  {
    hide DecodeChar;
  }

  lemma EncodeCons(c: CodePoint, s: Text)
    ensures Encode([c] + s) == EncodeChar(c) + Encode(s)
    ensures IsScalar(c) && Encodable(s) ==> Encodable([c] + s)
  {
    hide EncodeChar, IsScalar;
    assert ([c] + s)[1..] == s;
  }

  /** The strict decoder accepts exactly the encodings of scalar-value texts, each as its own text. */
  lemma DecodesExactlyEncodings(b: Bytes, s: Text)
    ensures Decode(b) == Some(s) <==> Encodable(s) && Encode(s) == b
  {
    if Decode(b) == Some(s) {
      EncodeDecode(b);
    }
    if Encodable(s) && Encode(s) == b {
      DecodeEncode(s);
    }
  }
}
