/** Numbers written as base-16 digits, most significant first. */
module Nibbles {

  type Nibble = x: int | 0 <= x < 16

  function Pow16(k: nat): (n: nat)
    ensures n > 0
  {
    if k == 0 then 1 else 16 * Pow16(k - 1)
  }

  function Value(s: seq<Nibble>): nat {
    if s == [] then 0 else 16 * Value(s[..|s| - 1]) + s[|s| - 1]
  }

  lemma {:induction false} ValueBound(s: seq<Nibble>)
    ensures Value(s) < Pow16(|s|)
  {
    if s != [] {
      ValueBound(s[..|s| - 1]);
    }
  }

  lemma {:induction false} PowAdd(m: nat, n: nat)
    ensures Pow16(m + n) == Pow16(m) * Pow16(n)
  {
    if m > 0 {
      PowAdd(m - 1, n);
      assert Pow16(m + n) == 16 * Pow16(m - 1 + n);
      assert 16 * (Pow16(m - 1) * Pow16(n)) == (16 * Pow16(m - 1)) * Pow16(n);
    }
  }

  lemma {:induction false} ValueConcat(s: seq<Nibble>, t: seq<Nibble>)
    ensures Value(s + t) == Value(s) * Pow16(|t|) + Value(t)
  {
    if t == [] {
      assert s + t == s;
    } else {
      var u := t[..|t| - 1];
      ValueConcat(s, u);
      assert (s + t)[..|s + t| - 1] == s + u;
      assert 16 * (Value(s) * Pow16(|u|)) == Value(s) * (16 * Pow16(|u|));
    }
  }

  lemma DivMod(q: nat, r: nat, d: nat)
    requires r < d
    ensures (q * d + r) / d == q && (q * d + r) % d == r
  {
    var x := q * d + r;
    var a := x / d;
    assert x == a * d + x % d;
    if a < q {
      TimesLess(a, q, d);
    } else if q < a {
      TimesLess(q, a, d);
    }
  }

  lemma TimesLess(x: nat, y: nat, d: nat)
    requires x < y
    ensures x * d + d <= y * d
  {
    assert (x + 1) * d <= y * d;
  }

  /** Dividing by a power of 16 drops digits from the end, and the remainder is what was dropped. */
  lemma SplitValue(s: seq<Nibble>, cut: nat)
    requires cut <= |s|
    ensures Value(s) / Pow16(|s| - cut) == Value(s[..cut])
    ensures Value(s) % Pow16(|s| - cut) == Value(s[cut..])
  {
    hide Value, Pow16;
    assert s == s[..cut] + s[cut..];
    ValueConcat(s[..cut], s[cut..]);
    ValueBound(s[cut..]);
    DivMod(Value(s[..cut]), Value(s[cut..]), Pow16(|s| - cut));
  }

  lemma PowersOf16()
    ensures Pow16(0) == 1 && Pow16(1) == 16 && Pow16(2) == 256 && Pow16(3) == 4096
    ensures Pow16(4) == 0x1_0000 && Pow16(8) == 0x1_0000_0000
  {
    assert Pow16(5) == 16 * Pow16(4);
    assert Pow16(6) == 16 * Pow16(5);
    assert Pow16(7) == 16 * Pow16(6);
  }
}
