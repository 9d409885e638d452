/**
 The W4 weight format of python/llmopt_backend/quantization.py, over exact numbers: symmetric int4
 groups of 64 with one stored scale each. `eps` stands for the smallest amax the scale is taken from,
 and the rounding of a scale to FP16 is any map.
 */
module Int4Pack {
  import opened Results

  const GROUP := 64

  // ---------------------------------------------------------------------------------------
  // Rounding
  // ---------------------------------------------------------------------------------------

  function Abs(x: real): real {
    if x < 0.0 then -x else x
  }

  function AbsInt(x: int): nat {
    if x < 0 then -x else x
  }

  /** To the nearest integer, ties to the even one. */
  function RoundEven(x: real): int {
    var low := x.Floor;
    var rest := x - low as real;
    if rest < 0.5 then low
    else if rest > 0.5 then low + 1
    else if low % 2 == 0 then low
    else low + 1
  }

  /** `q` is the rounding of `x` exactly when it is nearer than a half, or at a half and even. */
  lemma RoundsTo(x: real, q: int)
    ensures RoundEven(x) == q <==> Abs(x - q as real) < 0.5 || (Abs(x - q as real) == 0.5 && q % 2 == 0)
  {
    var low := x.Floor;
    assert low as real <= x < low as real + 1.0;
    if q < low {
      assert q as real <= low as real - 1.0;
    } else if q > low + 1 {
      assert q as real >= low as real + 2.0;
    }
  }

  /** Products and quotients are named so that proofs can pass them on unopened. */
  function Mul(a: real, b: real): real {
    a * b
  }

  function Ratio(a: real, b: real): real
    requires b > 0.0
  {
    a / b
  }

  function Clamp(q: int): int {
    if q < -8 then -8 else if q > 7 then 7 else q
  }

  // ---------------------------------------------------------------------------------------
  // Groups
  // ---------------------------------------------------------------------------------------

  function Amax(group: seq<real>): (a: real)
    ensures a >= 0.0
    ensures forall i :: 0 <= i < |group| ==> Abs(group[i]) <= a
    ensures group != [] ==> exists i :: 0 <= i < |group| && Abs(group[i]) == a
  {
    if group == [] then 0.0
    else
      var n := |group| - 1;
      var rest := Amax(group[..n]);
      if Abs(group[n]) >= rest then Abs(group[n])
      else
        assert exists i :: 0 <= i < n && Abs(group[..n][i]) == rest;
        rest
  }

  function Max(a: real, b: real): real {
    if a >= b then a else b
  }

  /** The scale a group is quantized with. */
  function Scale(group: seq<real>, eps: real): (s: real)
    requires eps > 0.0
    ensures s > 0.0
  {
    Max(Amax(group), eps) / 7.0
  }

  function Quantize(w: real, s: real): int
    requires s > 0.0
  {
    Clamp(RoundEven(Ratio(w, s)))
  }

  function QuantizeGroup(group: seq<real>, eps: real): (q: seq<int>)
    requires eps > 0.0
    ensures |q| == |group|
  {
    var s := Scale(group, eps);
    seq(|group|, i requires 0 <= i < |group| => Quantize(group[i], s))
  }

  // Facts about products and quotients, each on its own.

  lemma Quotient(a: real, b: real)
    requires b > 0.0
    ensures Mul(Ratio(a, b), b) == a
  {
  }

  lemma MulLess(a: real, b: real, s: real)
    requires s > 0.0 && a < b
    ensures Mul(a, s) < Mul(b, s)
  {
    assert (b - a) * s > 0.0;
  }

  lemma MulLessEq(a: real, b: real, s: real)
    requires s >= 0.0 && a <= b
    ensures Mul(a, s) <= Mul(b, s)
  {
    assert (b - a) * s >= 0.0;
  }

  lemma DivideOut(a: real, b: real, s: real)
    requires s > 0.0 && Mul(a, s) <= Mul(b, s)
    ensures a <= b
  {
    if b < a {
      MulLess(b, a, s);
      assert false;
    }
  }

  lemma Distribute(a: real, b: real, s: real)
    ensures Mul(a - b, s) == Mul(a, s) - Mul(b, s)
  {
  }

  lemma DistributeLeft(a: real, b: real, c: real)
    ensures Mul(a, b - c) == Mul(a, b) - Mul(a, c)
  {
  }

  lemma ByConstant(s: real)
    ensures Mul(7.0, s) == 7.0 * s && Mul(-7.0, s) == -7.0 * s
    ensures Mul(0.5, s) == 0.5 * s && Mul(-0.5, s) == -0.5 * s
  {
  }

  /** The scale is a seventh of the range it covers. */
  lemma ScaleCovers(group: seq<real>, eps: real)
    requires eps > 0.0
    ensures var s := Scale(group, eps);
            && 7.0 * s == Max(Amax(group), eps)
            && forall i :: 0 <= i < |group| ==> Abs(group[i]) <= 7.0 * s
  {
  }

  lemma SmallQuotient(w: real, s: real)
    requires s > 0.0 && Abs(w) <= 7.0 * s
    ensures Abs(Ratio(w, s)) <= 7.0
  {
    hide Mul, Ratio;
    Quotient(w, s);
    ByConstant(s);
    DivideOut(Ratio(w, s), 7.0, s);
    DivideOut(-7.0, Ratio(w, s), s);
  }

  lemma HalfStep(w: real, s: real, q: real)
    requires s > 0.0 && Abs(Ratio(w, s) - q) <= 0.5
    ensures 2.0 * Abs(w - Mul(q, s)) <= s
  {
    hide Mul, Ratio;
    var x := Ratio(w, s);
    Quotient(w, s);
    Distribute(x, q, s);
    ByConstant(s);
    MulLessEq(x - q, 0.5, s);
    MulLessEq(-0.5, x - q, s);
  }

  /** A weight within seven steps: its rounded quotient is not clamped and at most half a step away. */
  lemma QuantizedWeight(w: real, s: real)
    requires s > 0.0 && Abs(w) <= 7.0 * s
    ensures -7 <= RoundEven(Ratio(w, s)) <= 7 && Quantize(w, s) == RoundEven(Ratio(w, s))
    ensures 2.0 * Abs(w - Mul(Quantize(w, s) as real, s)) <= s
  {
    hide Mul, Ratio;
    SmallQuotient(w, s);
    var q := RoundEven(Ratio(w, s));
    RoundsTo(Ratio(w, s), q);
    hide RoundEven;
    assert Abs(Ratio(w, s) - q as real) <= 0.5;
    assert -8.0 < q as real < 8.0;
    HalfStep(w, s, q as real);
  }

  /** The rounded quotient is within 7 of zero and a half step of the weight, so the clamp does nothing. */
  lemma QuantizedIsNear(group: seq<real>, eps: real, i: nat)
    requires eps > 0.0 && i < |group|
    ensures var s := Scale(group, eps);
            && -7 <= RoundEven(Ratio(group[i], s)) <= 7
            && QuantizeGroup(group, eps)[i] == Quantize(group[i], s) == RoundEven(Ratio(group[i], s))
            && 2.0 * Abs(group[i] - Mul(QuantizeGroup(group, eps)[i] as real, s)) <= s
  {
    hide Mul, Ratio, RoundEven;
    ScaleCovers(group, eps);
    hide Amax, Scale, Quantize, Abs;
    QuantizedWeight(group[i], Scale(group, eps));
  }

  /** The largest magnitude a group is quantized to. */
  function Largest(q: seq<int>): (m: nat)
    ensures forall i :: 0 <= i < |q| ==> AbsInt(q[i]) <= m
    ensures m > 0 ==> exists i :: 0 <= i < |q| && AbsInt(q[i]) == m
  {
    if q == [] then 0
    else
      var n := |q| - 1;
      var rest := Largest(q[..n]);
      if AbsInt(q[n]) >= rest then AbsInt(q[n])
      else
        assert exists i :: 0 <= i < n && AbsInt(q[..n][i]) == rest;
        rest
  }

  /** Above `eps` the range is used up: some weight is quantized to 7 or -7. */
  lemma RangeIsUsed(group: seq<real>, eps: real)
    requires eps > 0.0 && group != [] && Amax(group) >= eps
    ensures Largest(QuantizeGroup(group, eps)) == 7
  {
    hide Mul, Ratio, RoundEven, Quantize, Largest;
    var s := Scale(group, eps);
    var i :| 0 <= i < |group| && Abs(group[i]) == Amax(group);
    ScaleCovers(group, eps);
    ExtremeWeight(group[i], s);
    SmallNibbles(group, eps);
    LargestIs(QuantizeGroup(group, eps), 7, i);
  }

  lemma ExtremeWeight(w: real, s: real)
    requires s > 0.0 && Abs(w) == 7.0 * s
    ensures AbsInt(Quantize(w, s)) == 7
  {
    hide Mul, Ratio, RoundEven;
    var sign := if w < 0.0 then -7 else 7;
    Quotient(w, s);
    ByConstant(s);
    DivideOut(Ratio(w, s), sign as real, s);
    DivideOut(sign as real, Ratio(w, s), s);
    RoundsTo(Ratio(w, s), sign);
  }

  lemma SmallNibbles(group: seq<real>, eps: real)
    requires eps > 0.0
    ensures var q := QuantizeGroup(group, eps); forall i :: 0 <= i < |q| ==> -7 <= q[i] <= 7
  {
    forall i | 0 <= i < |group|
      ensures -7 <= QuantizeGroup(group, eps)[i] <= 7
    {
      QuantizedIsNear(group, eps, i);
    }
  }

  lemma LargestIs(q: seq<int>, m: nat, i: nat)
    requires i < |q| && AbsInt(q[i]) == m && forall j :: 0 <= j < |q| ==> AbsInt(q[j]) <= m
    ensures Largest(q) == m
  {
  }

  // ---------------------------------------------------------------------------------------
  // Packing a row
  // ---------------------------------------------------------------------------------------

  /** `torch.remainder(q, 16)`. */
  function Nibble(q: int): (n: nat)
    ensures n < 16
  {
    q % 16
  }

  function Signed(nibble: nat): int {
    if nibble < 8 then nibble else nibble - 16
  }

  /** Byte `j` holds column 2 j in its low half and column 2 j + 1 in its high half. */
  function PackRow(q: seq<int>): (bytes: seq<nat>)
    ensures |bytes| == |q| / 2 && forall j :: 0 <= j < |bytes| ==> bytes[j] < 256
  {
    seq(|q| / 2, j requires 0 <= j < |q| / 2 => Nibble(q[2 * j]) + 16 * Nibble(q[2 * j + 1]))
  }

  function UnpackRow(bytes: seq<nat>): (q: seq<int>)
    ensures |q| == 2 * |bytes|
  {
    seq(2 * |bytes|, k requires 0 <= k < 2 * |bytes| =>
      Signed(if k % 2 == 0 then bytes[k / 2] % 16 else bytes[k / 2] / 16 % 16))
  }

  predicate IsInt4(q: int) {
    -8 <= q <= 7
  }

  lemma HalvesOfByte(low: nat, high: nat)
    requires low < 16 && high < 16
    ensures (low + 16 * high) % 16 == low && (low + 16 * high) / 16 % 16 == high
  {
  }

  /** Unpacking gives back every int4 row of even length. */
  lemma UnpackOfPack(q: seq<int>)
    requires |q| % 2 == 0 && forall k :: 0 <= k < |q| ==> IsInt4(q[k])
    ensures UnpackRow(PackRow(q)) == q
  {
    forall k | 0 <= k < |q|
      ensures UnpackRow(PackRow(q))[k] == q[k]
    {
      var j := k / 2;
      assert k == 2 * j || k == 2 * j + 1;
      UnpackedPair(q, j);
    }
  }

  /** The two columns of one byte. */
  lemma UnpackedPair(q: seq<int>, j: nat)
    requires 2 * j + 1 < |q| && IsInt4(q[2 * j]) && IsInt4(q[2 * j + 1])
    ensures 2 * j + 1 < |UnpackRow(PackRow(q))|
    ensures UnpackRow(PackRow(q))[2 * j] == q[2 * j] && UnpackRow(PackRow(q))[2 * j + 1] == q[2 * j + 1]
  {
    HalvesOfByte(Nibble(q[2 * j]), Nibble(q[2 * j + 1]));
    assert PackRow(q)[j] == Nibble(q[2 * j]) + 16 * Nibble(q[2 * j + 1]);
    SignedNibble(q[2 * j]);
    SignedNibble(q[2 * j + 1]);
    hide Nibble, Signed;
  }

  lemma SignedNibble(q: int)
    requires IsInt4(q)
    ensures Signed(Nibble(q)) == q
  {
  }

  /** And packing gives back every row of bytes. */
  lemma PackOfUnpack(bytes: seq<nat>)
    requires forall j :: 0 <= j < |bytes| ==> bytes[j] < 256
    ensures PackRow(UnpackRow(bytes)) == bytes
    ensures forall k :: 0 <= k < 2 * |bytes| ==> IsInt4(UnpackRow(bytes)[k])
  {
    var q := UnpackRow(bytes);
    forall j | 0 <= j < |bytes|
      ensures PackRow(q)[j] == bytes[j] && IsInt4(q[2 * j]) && IsInt4(q[2 * j + 1])
    {
      assert q[2 * j] == Signed(bytes[j] % 16);
      assert q[2 * j + 1] == Signed(bytes[j] / 16 % 16);
      NibblesOfByte(bytes[j]);
    }
    forall k | 0 <= k < 2 * |bytes|
      ensures IsInt4(q[k])
    {
      assert k == 2 * (k / 2) || k == 2 * (k / 2) + 1;
    }
  }

  lemma NibblesOfByte(b: nat)
    requires b < 256
    ensures b == b % 16 + 16 * (b / 16 % 16)
    ensures Nibble(Signed(b % 16)) == b % 16 && Nibble(Signed(b / 16 % 16)) == b / 16 % 16
    ensures IsInt4(Signed(b % 16)) && IsInt4(Signed(b / 16 % 16))
  {
  }

  // ---------------------------------------------------------------------------------------
  // Packing again
  // ---------------------------------------------------------------------------------------

  /** What unpacking a group gives: every nibble times the stored scale. */
  function Dequantize(q: seq<int>, stored: real): (w: seq<real>)
    ensures |w| == |q|
  {
    seq(|q|, i requires 0 <= i < |q| => Mul(q[i] as real, stored))
  }

  lemma ProductMagnitude(a: real, b: real)
    ensures Abs(Mul(a, b)) == Mul(Abs(a), Abs(b))
  {
    if a < 0.0 {
      MagnitudeOfNonNegative(-a, b);
      assert (-a) * b == -(a * b);
    } else {
      MagnitudeOfNonNegative(a, b);
    }
  }

  lemma MagnitudeOfNonNegative(a: real, b: real)
    requires a >= 0.0
    ensures Abs(a * b) == a * Abs(b)
  {
    if b < 0.0 {
      assert a * (-b) == -(a * b);
      assert a * (-b) >= 0.0;
    } else {
      assert a * b >= 0.0;
    }
  }

  lemma AbsAsReal(q: int)
    ensures Abs(q as real) == AbsInt(q) as real
  {
  }

  lemma AmaxOfDequantized(q: seq<int>, stored: real)
    requires stored >= 0.0
    ensures Amax(Dequantize(q, stored)) == Mul(Largest(q) as real, stored)
  {
    hide Mul, Amax, Largest;
    var w, m := Dequantize(q, stored), Largest(q);
    forall i | 0 <= i < |q|
      ensures Abs(w[i]) <= Mul(m as real, stored)
      ensures AbsInt(q[i]) == m ==> Abs(w[i]) == Mul(m as real, stored)
    {
      ProductMagnitude(q[i] as real, stored);
      AbsAsReal(q[i]);
      MulLessEq(AbsInt(q[i]) as real, m as real, stored);
    }
    hide Dequantize, Abs;
    if m > 0 {
      var i :| 0 <= i < |q| && AbsInt(q[i]) == m;
      AmaxIs(w, Mul(m as real, stored), i);
    } else if w != [] {
      AmaxIs(w, Mul(m as real, stored), 0);
    } else {
      AmaxOfNothing(stored);
    }
  }

  lemma AmaxOfNothing(stored: real)
    ensures Amax([]) == Mul(0.0, stored)
  {
  }

  lemma AmaxIs(w: seq<real>, a: real, i: nat)
    requires i < |w| && Abs(w[i]) == a && forall j :: 0 <= j < |w| ==> Abs(w[j]) <= a
    ensures Amax(w) == a
  {
  }

  /** Packing the unpacked group gives the same nibbles and the same stored scale. */
  ghost predicate Stable(group: seq<real>, eps: real, r: real -> real)
    requires eps > 0.0
  {
    var q := QuantizeGroup(group, eps);
    var stored := r(Scale(group, eps));
    var again := Dequantize(q, stored);
    QuantizeGroup(again, eps) == q && r(Scale(again, eps)) == stored
  }

  /** The rounding of scales: to non-negative numbers that it leaves alone. */
  ghost predicate ScaleRounding(r: real -> real) {
    && (forall x :: x >= 0.0 ==> r(x) >= 0.0)
    && (forall x {:trigger r(r(x))} :: x >= 0.0 ==> r(r(x)) == r(x))
  }

  /**
   With m the largest quantized magnitude, `least` the scale of an all-small group and `stored` the
   stored scale: either the group still spans the range, or it falls back to `least` and that is close
   enough to the stored scale.
   */
  predicate StaysPut(m: nat, stored: real, least: real, storedLeast: real) {
    if Mul(m as real, stored) > 7.0 * least then m == 7
    else storedLeast == stored && FallsBack(m, stored, least)
  }

  lemma SameNibble(q: int, s: real)
    requires s > 0.0
    ensures RoundEven(Ratio(Mul(q as real, s), s)) == q
  {
    var x := Ratio(Mul(q as real, s), s);
    Quotient(Mul(q as real, s), s);
    hide Mul, Ratio, RoundEven;
    DivideOut(x, q as real, s);
    DivideOut(q as real, x, s);
    RoundsTo(x, q);
  }

  /** A group that is q[i] times its own scale quantizes to q again. */
  lemma SameNibbles(q: seq<int>, w: seq<real>, eps: real)
    requires eps > 0.0 && w == Dequantize(q, Scale(w, eps))
    ensures QuantizeGroup(w, eps) == q
  {
    hide Mul, Ratio, RoundEven, Scale, Quantize;
    var s, again := Scale(w, eps), QuantizeGroup(w, eps);
    forall i | 0 <= i < |q|
      ensures again[i] == q[i]
    {
      assert w[i] == Mul(q[i] as real, s);
      QuantizedIsNear(w, eps, i);
      SameNibble(q[i], s);
    }
  }

  /** When the unpacked group spans the range again its scale is m / 7 of the stored one. */
  lemma SpanningGroup(q: seq<int>, stored: real, eps: real)
    requires eps > 0.0 && stored >= 0.0 && (forall i :: 0 <= i < |q| ==> -7 <= q[i] <= 7)
    requires Mul(Largest(q) as real, stored) > eps
    ensures QuantizeGroup(Dequantize(q, stored), eps) == q <==> Largest(q) == 7
    ensures Largest(q) == 7 ==> Scale(Dequantize(q, stored), eps) == stored
  {
    hide Mul, Ratio, RoundEven, Amax, Largest, QuantizeGroup, Dequantize;
    var m, w := Largest(q), Dequantize(q, stored);
    AmaxOfDequantized(q, stored);
    ScaleCovers(w, eps);
    hide Scale;
    ByConstant(stored);
    if m == 7 {
      assert Scale(w, eps) == stored;
      SameNibbles(q, w, eps);
    } else {
      NonEmpty(w, eps);
      RangeIsUsed(w, eps);
    }
  }

  lemma NonEmpty(w: seq<real>, eps: real)
    requires Amax(w) > eps > 0.0
    ensures w != []
  {
  }

  /** How far, in half steps of `least`, the stored scale takes nibble magnitude `m` from its place. */
  function Drift(m: nat, stored: real, least: real): real {
    2.0 * Mul(m as real, Abs(stored - least))
  }

  predicate FallsBack(m: nat, stored: real, least: real) {
    Drift(m, stored, least) < least || (Drift(m, stored, least) == least && m % 2 == 0)
  }

  /** One nibble when the scale falls back to `least`. */
  lemma FallbackNibble(q: int, stored: real, least: real)
    requires least > 0.0 && stored >= 0.0
    ensures RoundEven(Ratio(Mul(q as real, stored), least)) == q <==> FallsBack(AbsInt(q), stored, least)
  {
    var a := q as real;
    var x := Ratio(Mul(a, stored), least);
    hide Ratio, RoundEven;
    Quotient(Mul(a, stored), least);
    RoundsTo(x, q);
    Distribute(x, a, least);
    hide Mul;
    DistributeLeft(a, stored, least);
    ProductMagnitude(x - a, least);
    ProductMagnitude(a, stored - least);
    AbsAsReal(q);
    HalfOf(Abs(x - a), least, Mul(AbsInt(q) as real, Abs(stored - least)));
    assert q % 2 == AbsInt(q) % 2;
  }

  lemma HalfOf(gap: real, least: real, off: real)
    requires least > 0.0 && Mul(gap, least) == off
    ensures gap < 0.5 <==> 2.0 * off < least
    ensures gap == 0.5 <==> 2.0 * off == least
  {
    hide Mul;
    ByConstant(least);
    if gap < 0.5 {
      MulLess(gap, 0.5, least);
    } else if gap > 0.5 {
      MulLess(0.5, gap, least);
    }
  }

  lemma ZeroTimes(a: real, b: real)
    ensures Mul(a, 0.0) == Mul(b, 0.0) == 0.0 && Mul(0.0, a) == 0.0
  {
  }

  lemma DriftGrows(k: nat, m: nat, stored: real, least: real)
    requires k <= m && least > 0.0
    ensures FallsBack(m, stored, least) && k < m ==> FallsBack(k, stored, least)
  {
    hide Mul;
    var d := Abs(stored - least);
    MulLessEq(k as real, m as real, d);
    ZeroTimes(k as real, m as real);
    if k < m && d > 0.0 {
      MulLess(k as real, m as real, d);
    }
  }

  /** All nibbles when the scale falls back: the largest magnitude decides. */
  lemma FallbackGroup(q: seq<int>, stored: real, eps: real)
    requires eps > 0.0 && stored >= 0.0 && (forall i :: 0 <= i < |q| ==> -7 <= q[i] <= 7)
    requires Mul(Largest(q) as real, stored) <= eps
    ensures Scale(Dequantize(q, stored), eps) == eps / 7.0
    ensures QuantizeGroup(Dequantize(q, stored), eps) == q <==> FallsBack(Largest(q), stored, eps / 7.0)
  {
    hide Mul, Ratio, RoundEven, Largest, Quantize, FallsBack, QuantizeGroup, Dequantize, Amax;
    var m, least, w := Largest(q), eps / 7.0, Dequantize(q, stored);
    AmaxOfDequantized(q, stored);
    ScaleCovers(w, eps);
    var again := QuantizeGroup(w, eps);
    hide Scale;
    assert Scale(w, eps) == least;
    forall i | 0 <= i < |q|
      ensures again[i] == q[i] <==> FallsBack(AbsInt(q[i]), stored, least)
      ensures FallsBack(m, stored, least) ==> FallsBack(AbsInt(q[i]), stored, least)
    {
      FallbackAt(q, w, stored, eps, least, i);
      if AbsInt(q[i]) < m {
        DriftGrows(AbsInt(q[i]), m, stored, least);
      }
    }
    if FallsBack(m, stored, least) {
      assert forall i :: 0 <= i < |q| ==> again[i] == q[i];
      assert again == q;
    } else {
      ZeroFallsBack(stored, least);
      assert m > 0;
      var i :| 0 <= i < |q| && AbsInt(q[i]) == m;
      assert again[i] != q[i];
    }
  }

  lemma FallbackAt(q: seq<int>, w: seq<real>, stored: real, eps: real, least: real, i: nat)
    requires eps > 0.0 && stored >= 0.0 && w == Dequantize(q, stored) && Scale(w, eps) == least && i < |q|
    ensures QuantizeGroup(w, eps)[i] == q[i] <==> FallsBack(AbsInt(q[i]), stored, least)
  {
    hide Mul, Ratio, RoundEven, Quantize, FallsBack, QuantizeGroup, Scale;
    assert w[i] == Mul(q[i] as real, stored);
    FallbackNibble(q[i], stored, least);
    QuantizedIsNear(w, eps, i);
  }

  lemma ZeroFallsBack(stored: real, least: real)
    requires least > 0.0
    ensures FallsBack(0, stored, least)
  {
  }

  lemma StableByMagnitude(group: seq<real>, eps: real, r: real -> real, m: nat, stored: real)
    requires eps > 0.0 && ScaleRounding(r)
    requires m == Largest(QuantizeGroup(group, eps)) && stored == r(Scale(group, eps))
    ensures Stable(group, eps, r) <==> StaysPut(m, stored, eps / 7.0, r(eps / 7.0))
  {
    hide Mul, Ratio, RoundEven, Quantize;
    var q := QuantizeGroup(group, eps);
    SmallNibbles(group, eps);
    assert stored >= 0.0 && r(stored) == stored;
    assert 7.0 * (eps / 7.0) == eps;
    hide Scale, QuantizeGroup, Dequantize, Largest, ScaleRounding, FallsBack, Amax;
    if Mul(m as real, stored) > eps {
      SpanningGroup(q, stored, eps);
    } else {
      FallbackGroup(q, stored, eps);
    }
  }

  // ---------------------------------------------------------------------------------------
  // The largest magnitude, from the largest weight
  // ---------------------------------------------------------------------------------------

  /** What a weight of magnitude `amax` is quantized to in a group where none is larger. */
  function LargestMagnitude(amax: real, eps: real): (m: nat)
    requires amax >= 0.0 && eps > 0.0
  {
    if amax >= eps then 7
    else
      RatioOfMagnitude(amax, eps / 7.0);
      RoundEven(Ratio(amax, eps / 7.0))
  }

  lemma RatioOfMagnitude(a: real, s: real)
    requires a >= 0.0 && s > 0.0
    ensures Ratio(a, s) >= 0.0 && RoundEven(Ratio(a, s)) >= 0
  {
    var x := Ratio(a, s);
    Quotient(a, s);
    ZeroTimes(s, s);
    hide Mul, Ratio;
    DivideOut(0.0, x, s);
  }

  lemma RoundKeepsOrder(x: real, y: real)
    requires x <= y
    ensures RoundEven(x) <= RoundEven(y)
  {
    var p, q := RoundEven(x), RoundEven(y);
    RoundsTo(x, p);
    RoundsTo(y, q);
    hide RoundEven;
    assert p > q ==> p as real >= q as real + 1.0;
  }

  lemma RoundOfOpposite(x: real)
    ensures RoundEven(-x) == -RoundEven(x)
  {
    var q := RoundEven(x);
    RoundsTo(x, q);
    RoundsTo(-x, -q);
    hide RoundEven;
  }

  lemma RatioKeepsOrder(v: real, w: real, s: real)
    requires s > 0.0 && v <= w
    ensures Ratio(v, s) <= Ratio(w, s)
  {
    Quotient(v, s);
    Quotient(w, s);
    hide Mul, Ratio;
    DivideOut(Ratio(v, s), Ratio(w, s), s);
  }

  lemma RatioOfOpposite(w: real, s: real)
    requires s > 0.0
    ensures Ratio(-w, s) == -Ratio(w, s)
  {
  }

  /** The magnitude of a quantized weight is that of its magnitude. */
  lemma MagnitudeOfQuantized(w: real, s: real)
    requires s > 0.0
    ensures AbsInt(RoundEven(Ratio(w, s))) == RoundEven(Ratio(Abs(w), s))
  {
    RatioOfOpposite(w, s);
    RoundOfOpposite(Ratio(w, s));
    RatioOfMagnitude(Abs(w), s);
    hide Ratio, RoundEven;
  }

  /** The largest quantized magnitude of a group is decided by its largest weight. */
  lemma LargestIsOfAmax(group: seq<real>, eps: real)
    requires eps > 0.0
    ensures Largest(QuantizeGroup(group, eps)) == LargestMagnitude(Amax(group), eps)
  {
    hide Mul, Ratio, RoundEven, Quantize, Largest, QuantizeGroup;
    if group == [] {
      EmptyGroup(eps);
    } else if Amax(group) >= eps {
      RangeIsUsed(group, eps);
    } else {
      var i :| 0 <= i < |group| && Abs(group[i]) == Amax(group);
      var q := QuantizeGroup(group, eps);
      hide Amax;
      forall j | 0 <= j < |group|
        ensures AbsInt(q[j]) == RoundEven(Ratio(Abs(group[j]), eps / 7.0))
        ensures AbsInt(q[j]) <= RoundEven(Ratio(Amax(group), eps / 7.0))
      {
        QuantizedIsNear(group, eps, j);
        MagnitudeOfQuantized(group[j], eps / 7.0);
        RatioKeepsOrder(Abs(group[j]), Amax(group), eps / 7.0);
        RoundKeepsOrder(Ratio(Abs(group[j]), eps / 7.0), Ratio(Amax(group), eps / 7.0));
      }
      hide Scale, Abs, AbsInt;
      LargestIs(q, LargestMagnitude(Amax(group), eps), i);
    }
  }

  lemma EmptyGroup(eps: real)
    requires eps > 0.0
    ensures Largest(QuantizeGroup([], eps)) == LargestMagnitude(Amax([]), eps)
  {
    ZeroRatio(eps / 7.0);
    hide RoundEven, Ratio;
  }

  lemma ZeroRatio(s: real)
    requires s > 0.0
    ensures RoundEven(Ratio(0.0, s)) == 0
  {
    RoundsTo(Ratio(0.0, s), 0);
  }

  /**
   Exactly when packing the unpacked group changes nothing, for every group and every scale rounding,
   from its largest magnitude alone. A group not below `eps` is stored with the rounding of a seventh of
   that magnitude and uses the whole range; a smaller one with the rounding of the least scale.
   */
  lemma StableExactly(group: seq<real>, eps: real, r: real -> real)
    requires eps > 0.0 && ScaleRounding(r)
    ensures Stable(group, eps, r)
        <==> StaysPut(LargestMagnitude(Amax(group), eps), r(Max(Amax(group), eps) / 7.0), eps / 7.0, r(eps / 7.0))
  {
    LargestIsOfAmax(group, eps);
    StableByMagnitude(group, eps, r, LargestMagnitude(Amax(group), eps), r(Max(Amax(group), eps) / 7.0));
    hide Stable, StaysPut;
  }

  lemma FullRangeStaysPut(stored: real, least: real, storedLeast: real)
    requires stored >= least > 0.0 && (stored == least ==> storedLeast == stored)
    ensures StaysPut(7, stored, least, storedLeast)
  {
    hide Mul;
    ByConstant(stored);
    ZeroTimes(7.0, 7.0);
  }

  /** A group above `eps` whose stored scale times 7 is not below `eps` is stable. */
  lemma LargeGroupsAreStable(group: seq<real>, eps: real, r: real -> real)
    requires eps > 0.0 && ScaleRounding(r)
    requires Amax(group) >= eps && 7.0 * r(Amax(group) / 7.0) >= eps
    ensures Stable(group, eps, r)
  {
    StableExactly(group, eps, r);
    var s := Amax(group) / 7.0;
    assert r(r(s)) == r(s);
    hide Stable, Amax, StaysPut, ScaleRounding;
    FullRangeStaysPut(r(s), eps / 7.0, r(eps / 7.0));
  }

  // ---------------------------------------------------------------------------------------
  // Groups whose scale is stored as zero
  // ---------------------------------------------------------------------------------------

  /**
   When the least scale is stored as zero, a group that is given it is unpacked to zeros, and so only
   stable if it was quantized to zeros.
   */
  lemma FlushedGroup(group: seq<real>, eps: real, r: real -> real)
    requires eps > 0.0 && ScaleRounding(r) && r(eps / 7.0) == 0.0 && Amax(group) <= eps
    ensures forall i :: 0 <= i < |group| ==> Dequantize(QuantizeGroup(group, eps), r(Scale(group, eps)))[i] == 0.0
    ensures Stable(group, eps, r) <==> LargestMagnitude(Amax(group), eps) == 0
  {
    hide Amax, RoundEven, Ratio, Quantize, ScaleRounding;
    assert Scale(group, eps) == eps / 7.0;
    var m := LargestMagnitude(Amax(group), eps);
    forall i | 0 <= i < |group|
      ensures Dequantize(QuantizeGroup(group, eps), 0.0)[i] == 0.0
    {
      ZeroTimes(QuantizeGroup(group, eps)[i] as real, 0.0);
    }
    StableExactly(group, eps, r);
    hide Stable, LargestMagnitude, Scale, QuantizeGroup;
    ZeroStored(m, eps / 7.0);
  }

  lemma ZeroStored(m: nat, least: real)
    requires least > 0.0
    ensures StaysPut(m, 0.0, least, 0.0) <==> m == 0
  {
    ZeroTimes(m as real, 0.0);
    ByLeast(m, least);
    hide Mul;
  }

  lemma ByLeast(m: nat, least: real)
    requires least > 0.0
    ensures if m == 0 then Mul(m as real, least) == 0.0 else Mul(m as real, least) >= least
  {
    if m > 0 {
      MulLessEq(1.0, m as real, least);
    }
  }

  /** `torch.finfo(torch.float32).eps`. */
  const EPSILON: real := 1.0 / 8388608.0

  /** The rounding of IEEE 754 half precision (section 3.6 of the standard) below 2^-14: to a multiple of 2^-24. */
  function HalfSubnormal(x: real): real {
    RoundEven(x * 16777216.0) as real / 16777216.0
  }

  lemma HalfSubnormalIsRounding()
    ensures ScaleRounding(HalfSubnormal)
  {
    forall x: real | x >= 0.0
      ensures HalfSubnormal(x) >= 0.0
    {
      RoundsTo(x * 16777216.0, RoundEven(x * 16777216.0));
    }
    forall x: real {:trigger HalfSubnormal(HalfSubnormal(x))} | x >= 0.0
      ensures HalfSubnormal(HalfSubnormal(x)) == HalfSubnormal(x)
    {
      var n := RoundEven(x * 16777216.0);
      assert HalfSubnormal(x) * 16777216.0 == n as real;
      RoundsTo(n as real, n);
    }
  }

  /** Half precision stores a seventh of float32 epsilon as zero. */
  lemma LeastScaleIsFlushed()
    ensures EPSILON / 7.0 < 1.0 / 16384.0 && HalfSubnormal(EPSILON / 7.0) == 0.0
  {
    RoundsTo(EPSILON / 7.0 * 16777216.0, 0);
  }

  /**
   So a group of 64 weights that the code changes: its largest is epsilon, quantized to 7, and all of it
   is unpacked to zero, under any rounding that does with the least scale what half precision does.
   */
  lemma EpsilonGroupMoves(group: seq<real>, r: real -> real)
    requires |group| == GROUP && Amax(group) == EPSILON
    requires ScaleRounding(r) && r(EPSILON / 7.0) == HalfSubnormal(EPSILON / 7.0)
    ensures Largest(QuantizeGroup(group, EPSILON)) == 7 && !Stable(group, EPSILON, r)
    ensures Dequantize(QuantizeGroup(group, EPSILON), r(Scale(group, EPSILON))) == seq(GROUP, _ => 0.0)
  {
    LeastScaleIsFlushed();
    hide Amax, RoundEven, Ratio, Quantize, HalfSubnormal, ScaleRounding, Stable, Largest;
    RangeIsUsed(group, EPSILON);
    FlushedGroup(group, EPSILON, r);
  }

  /** Such groups exist. */
  lemma EpsilonGroup()
    ensures var group := seq(GROUP, i => if i == 0 then EPSILON else 0.0);
            |group| == GROUP && Amax(group) == EPSILON && ScaleRounding(HalfSubnormal)
            && !Stable(group, EPSILON, HalfSubnormal)
  {
    var group := seq(GROUP, i => if i == 0 then EPSILON else 0.0);
    hide Stable, HalfSubnormal, Amax, RoundEven, ScaleRounding;
    AmaxIs(group, EPSILON, 0);
    HalfSubnormalIsRounding();
    EpsilonGroupMoves(group, HalfSubnormal);
  }
}
