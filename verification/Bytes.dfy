/** Bytes and the little-endian integers that both binary formats are built from. */
module Bytes {

  type Byte = x: int | 0 <= x < 256
  type Bytes = seq<Byte>

  const U16_LIMIT := 0x1_0000
  const U32_LIMIT := 0x1_0000_0000
  const U64_LIMIT := 0x1_0000_0000_0000_0000
  const I64_LIMIT := 0x8000_0000_0000_0000

  /** The number of values `width` bytes can hold. */
  function Limit(width: nat): (n: nat)
    ensures n > 0
  {
    if width == 0 then 1 else 256 * Limit(width - 1)
  }

  /** The low `width` bytes of `value`, least significant first. */
  function Little(width: nat, value: nat): (b: Bytes)
    ensures |b| == width
  {
    if width == 0 then [] else [value % 256] + Little(width - 1, value / 256)
  }

  function FromLittle(b: Bytes): nat {
    if b == [] then 0 else b[0] + 256 * FromLittle(b[1..])
  }

  lemma Limits()
    ensures Limit(1) == 256 && Limit(2) == U16_LIMIT
    ensures Limit(4) == U32_LIMIT && Limit(8) == U64_LIMIT
  {
    assert Limit(3) == 0x100_0000;
    assert Limit(5) == 256 * Limit(4);
    assert Limit(6) == 256 * Limit(5);
    assert Limit(7) == 256 * Limit(6);
  }

  lemma {:induction false} FromLittleOfLittle(width: nat, value: nat)
    requires value < Limit(width)
    ensures FromLittle(Little(width, value)) == value
  {
    if width == 0 {
    } else {
      FromLittleOfLittle(width - 1, value / 256);
      assert Little(width, value)[1..] == Little(width - 1, value / 256);
    }
  }

  lemma {:induction false} LittleOfFromLittle(b: Bytes)
    ensures FromLittle(b) < Limit(|b|)
    ensures Little(|b|, FromLittle(b)) == b
  {
    if b == [] {
    } else {
      LittleOfFromLittle(b[1..]);
      assert b == [b[0]] + b[1..];
    }
  }

  /** Two's complement: the signed 64-bit integer that an unsigned pattern stores. */
  function ToSigned(u: nat): int
    requires u < U64_LIMIT
  {
    if u < I64_LIMIT then u else u - U64_LIMIT
  }
}
