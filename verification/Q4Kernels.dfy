/**
 The decode kernels of bench/metal_q4_opt_probe.swift and bench/metal_gemma4_layer_probe.swift.
 The 32 lanes of a SIMD group run the same loop on their own accumulators and meet only in
 `simd_sum`, so they are run here one after the other.
 */
module Q4Kernels {
  import opened Bytes
  import opened Sums
  import opened LaneCover
  import opened Q4Model

  // ---------------------------------------------------------------------------------------
  // The arithmetic of one lane in one step
  // ---------------------------------------------------------------------------------------

  /** Sixteen bits loaded at once hold two bytes, the first one low. */
  function Halfword(b0: Byte, b1: Byte): nat {
    b0 + 256 * b1
  }

  function Nibble(word: nat, shift: nat): real
    requires shift > 0
  {
    (word / shift % 16) as real
  }

  /** The four products of the DOT_PAIR macro, without the offset. */
  function PairProducts(word: nat, a0lo: real, a0hi: real, a1lo: real, a1hi: real): real {
    a0lo * Nibble(word, 1) + a0hi * Nibble(word, 16) + a1lo * Nibble(word, 256) + a1hi * Nibble(word, 4096)
  }

  lemma NibblesOfHalfword(b0: Byte, b1: Byte)
    ensures Nibble(Halfword(b0, b1), 1) == Low(b0) + 8.0
    ensures Nibble(Halfword(b0, b1), 16) == High(b0) + 8.0
    ensures Nibble(Halfword(b0, b1), 256) == Low(b1) + 8.0
    ensures Nibble(Halfword(b0, b1), 4096) == High(b1) + 8.0
  {
    HalfwordDigits(b0 % 16, b0 / 16, b1 % 16, b1 / 16);
  }

  lemma HalfwordDigits(d0: nat, d1: nat, d2: nat, d3: nat)
    requires d0 < 16 && d1 < 16 && d2 < 16 && d3 < 16
    ensures var w := d0 + 16 * d1 + 256 * (d2 + 16 * d3);
            w % 16 == d0 && w / 16 % 16 == d1 && w / 256 % 16 == d2 && w / 4096 % 16 == d3
  {
    var w := d0 + 16 * d1 + 256 * (d2 + 16 * d3);
    assert w / 16 == d1 + 16 * (d2 + 16 * d3);
    assert w / 256 == d2 + 16 * d3;
    assert w / 4096 == d3;
  }

  /** Subtracting eight times the activations once is subtracting 8 from every weight. */
  lemma OffsetFactorsOut(s: real, x: real, y: real, l: real, h: real)
    ensures s * (x * (l + 8.0) + y * (h + 8.0) - 8.0 * (x + y)) == s * (x * l + y * h)
  {
    assert x * (l + 8.0) == x * l + 8.0 * x;
    assert y * (h + 8.0) == y * h + 8.0 * y;
  }

  lemma EightTimes(a: real, q: real)
    ensures a * (q + 8.0) == a * q + 8.0 * a
  {
  }

  lemma Distribute(s: real, a: real, b: real)
    ensures s * (a + b) == s * a + s * b
  {
  }

  lemma Steps(t: (int, int) -> real, lane: nat, c: int)
    ensures LaneStep(t, 1, lane, c) == t(2 * c + lane / 16, lane % 16)
    ensures LaneStep(t, 2, lane, c)
         == t(4 * c + lane / 8, 2 * (lane % 8)) + t(4 * c + lane / 8, 2 * (lane % 8) + 1)
    ensures LaneStep(t, 4, lane, c)
         == t(8 * c + lane / 4, 4 * (lane % 4)) + t(8 * c + lane / 4, 4 * (lane % 4) + 1)
            + t(8 * c + lane / 4, 4 * (lane % 4) + 2) + t(8 * c + lane / 4, 4 * (lane % 4) + 3)
  {
  }

  lemma OneMoreStep(t: (int, int) -> real, width: nat, lane: nat, c: nat)
    requires LaneWidth(width)
    ensures LaneSum(t, width, lane, c + 1) == LaneSum(t, width, lane, c) + LaneStep(t, width, lane, c)
    ensures LaneSum(t, width, lane, 0) == 0.0
  {
  }

  /** The terms of one column at a block inside it. */
  lemma TermInside(p: Problem, col: nat, b: nat, j: nat)
    requires p.Valid() && col < p.n && b < p.Blocks() && j < 16
    ensures p.Terms(col)(b, j)
         == p.Scale(col, b) * (p.input[32 * b + j] * Low(p.Packed(col, b, j))
                               + p.input[32 * b + j + 16] * High(p.Packed(col, b, j)))
  {
  }

  // ---------------------------------------------------------------------------------------
  // What one lane adds to the accumulator of one column in one step, as each kernel writes it
  // ---------------------------------------------------------------------------------------

  function Baseline(s: real, low: real, high: real, packed: Byte): real {
    var q0, q1 := (packed % 16 - 8) as real, (packed / 16 - 8) as real;
    s * (low * q0 + high * q1)
  }

  function Factored(s: real, low: real, high: real, packed: Byte): real {
    var sum8 := 8.0 * (low + high);
    s * (low * (packed % 16) as real + high * (packed / 16) as real - sum8)
  }

  function Pair(s: real, a0lo: real, a0hi: real, a1lo: real, a1hi: real, word: nat): real {
    var sum8 := 8.0 * (a0lo + a0hi + a1lo + a1hi);
    s * (PairProducts(word, a0lo, a0hi, a1lo, a1hi) - sum8)
  }

  function Quad(s: real, a0lo: real, a0hi: real, a1lo: real, a1hi: real,
                a2lo: real, a2hi: real, a3lo: real, a3hi: real, lo: nat, hi: nat): real
  {
    var sum8 := 8.0 * (a0lo + a0hi + a1lo + a1hi + a2lo + a2hi + a3lo + a3hi);
    s * (PairProducts(lo, a0lo, a0hi, a1lo, a1hi) + PairProducts(hi, a2lo, a2hi, a3lo, a3hi) - sum8)
  }

  lemma ByteFormulas(s: real, low: real, high: real, packed: Byte)
    ensures Baseline(s, low, high, packed) == Factored(s, low, high, packed)
            == s * (low * Low(packed) + high * High(packed))
  {
    OffsetFactorsOut(s, low, high, Low(packed), High(packed));
  }

  /** What one byte of weights adds before it is scaled. */
  function OneByte(low: real, high: real, packed: Byte): real {
    low * Low(packed) + high * High(packed)
  }

  lemma ByteStep(p: Problem, col: nat, lane: nat, b: nat)
    requires p.Valid() && col < p.n && lane < 32 && 2 * b + 1 < p.Blocks()
    ensures var block, l := 2 * b + lane / 16, lane % 16;
            LaneSum(p.Terms(col), 1, lane, b + 1)
            == LaneSum(p.Terms(col), 1, lane, b)
               + Baseline(p.Scale(col, block), p.input[block * 32 + l], p.input[block * 32 + l + 16],
                          p.Packed(col, block, l))
  {
    hide LaneSum, LaneStep, Problem.Scale, Problem.Packed, Problem.Term, Problem.Terms, Problem.BlockStart;
    hide Low, High, Baseline, Factored, Pair, Quad, Halfword;
    var block, l := 2 * b + lane / 16, lane % 16;
    OneMoreStep(p.Terms(col), 1, lane, b);
    Steps(p.Terms(col), lane, b);
    TermInside(p, col, block, l);
    ByteFormulas(p.Scale(col, block), p.input[block * 32 + l], p.input[block * 32 + l + 16], p.Packed(col, block, l));
  }

  /** The products of one halfword: those of its four weights, and the offset that is taken off again. */
  lemma HalfwordProducts(word: nat, a: seq<real>, q: seq<real>)
    requires |a| == |q| == 4
    requires Nibble(word, 1) == q[0] + 8.0 && Nibble(word, 16) == q[1] + 8.0
    requires Nibble(word, 256) == q[2] + 8.0 && Nibble(word, 4096) == q[3] + 8.0
    ensures PairProducts(word, a[0], a[1], a[2], a[3])
         == (a[0] * q[0] + a[1] * q[1]) + (a[2] * q[2] + a[3] * q[3]) + 8.0 * (a[0] + a[1] + a[2] + a[3])
  {
    hide Nibble;
    EightTimes(a[0], q[0]);
    EightTimes(a[1], q[1]);
    EightTimes(a[2], q[2]);
    EightTimes(a[3], q[3]);
  }

  lemma TermOfByte(p: Problem, col: nat, b: nat, j: nat)
    requires p.Valid() && col < p.n && b < p.Blocks() && j < 16
    ensures p.Terms(col)(b, j)
         == p.Scale(col, b) * OneByte(p.input[32 * b + j], p.input[32 * b + j + 16], p.Packed(col, b, j))
  {
    TermInside(p, col, b, j);
  }

  lemma PairStep(p: Problem, col: nat, lane: nat, c: nat)
    requires p.Valid() && col < p.n && lane < 32 && 4 * c + 3 < p.Blocks()
    ensures var block, t := 4 * c + lane / 8, lane % 8;
            var k := block * 32 + 2 * t;
            LaneSum(p.Terms(col), 2, lane, c + 1)
            == LaneSum(p.Terms(col), 2, lane, c)
               + Pair(p.Scale(col, block), p.input[k], p.input[k + 16], p.input[k + 1], p.input[k + 17],
                      Halfword(p.Packed(col, block, 2 * t), p.Packed(col, block, 2 * t + 1)))
  {
    hide LaneSum, LaneStep, Problem.Scale, Problem.Packed, Problem.Term, Problem.Terms, Problem.BlockStart;
    hide Low, High, Baseline, Factored, Quad, Halfword, Nibble;
    var block, t := 4 * c + lane / 8, lane % 8;
    var k := block * 32 + 2 * t;
    var s, b0, b1 := p.Scale(col, block), p.Packed(col, block, 2 * t), p.Packed(col, block, 2 * t + 1);
    var x := OneByte(p.input[k], p.input[k + 16], b0);
    var y := OneByte(p.input[k + 1], p.input[k + 17], b1);
    NibblesOfHalfword(b0, b1);
    HalfwordProducts(Halfword(b0, b1), [p.input[k], p.input[k + 16], p.input[k + 1], p.input[k + 17]],
                     [Low(b0), High(b0), Low(b1), High(b1)]);
    hide PairProducts, OneByte;
    Distribute(s, x, y);
    OneMoreStep(p.Terms(col), 2, lane, c);
    Steps(p.Terms(col), lane, c);
    TermOfByte(p, col, block, 2 * t);
    TermOfByte(p, col, block, 2 * t + 1);
  }

  lemma QuadStep(p: Problem, col: nat, lane: nat, c: nat)
    requires p.Valid() && col < p.n && lane < 32 && 8 * c + lane / 4 < p.Blocks()
    ensures var block, t := 8 * c + lane / 4, lane % 4;
            var k := block * 32 + 4 * t;
            LaneSum(p.Terms(col), 4, lane, c + 1)
            == LaneSum(p.Terms(col), 4, lane, c)
               + Quad(p.Scale(col, block), p.input[k], p.input[k + 16], p.input[k + 1], p.input[k + 17],
                      p.input[k + 2], p.input[k + 18], p.input[k + 3], p.input[k + 19],
                      Halfword(p.Packed(col, block, 4 * t), p.Packed(col, block, 4 * t + 1)),
                      Halfword(p.Packed(col, block, 4 * t + 2), p.Packed(col, block, 4 * t + 3)))
  {
    hide LaneSum, LaneStep, Problem.Scale, Problem.Packed, Problem.Term, Problem.Terms, Problem.BlockStart;
    hide Low, High, Baseline, Factored, Pair, Halfword, Nibble, PairProducts;
    var block, t := 8 * c + lane / 4, lane % 4;
    var k := block * 32 + 4 * t;
    var s := p.Scale(col, block);
    var b0, b1 := p.Packed(col, block, 4 * t), p.Packed(col, block, 4 * t + 1);
    var b2, b3 := p.Packed(col, block, 4 * t + 2), p.Packed(col, block, 4 * t + 3);
    var x, y := OneByte(p.input[k], p.input[k + 16], b0), OneByte(p.input[k + 1], p.input[k + 17], b1);
    var z, w := OneByte(p.input[k + 2], p.input[k + 18], b2), OneByte(p.input[k + 3], p.input[k + 19], b3);
    NibblesOfHalfword(b0, b1);
    NibblesOfHalfword(b2, b3);
    HalfwordProducts(Halfword(b0, b1), [p.input[k], p.input[k + 16], p.input[k + 1], p.input[k + 17]],
                     [Low(b0), High(b0), Low(b1), High(b1)]);
    HalfwordProducts(Halfword(b2, b3), [p.input[k + 2], p.input[k + 18], p.input[k + 3], p.input[k + 19]],
                     [Low(b2), High(b2), Low(b3), High(b3)]);
    Distribute(s, x + y, z + w);
    Distribute(s, x, y);
    Distribute(s, z, w);
    OneMoreStep(p.Terms(col), 4, lane, c);
    Steps(p.Terms(col), lane, c);
    TermOfByte(p, col, block, 4 * t);
    TermOfByte(p, col, block, 4 * t + 1);
    TermOfByte(p, col, block, 4 * t + 2);
    TermOfByte(p, col, block, 4 * t + 3);
  }

  /** A lane that the tail guard switches off had nothing to add. */
  lemma GuardedOut(p: Problem, col: nat, lane: nat, c: nat)
    requires 8 * c + lane / 4 >= p.Blocks()
    ensures LaneSum(p.Terms(col), 4, lane, c + 1) == LaneSum(p.Terms(col), 4, lane, c)
  {
    OneMoreStep(p.Terms(col), 4, lane, c);
    Steps(p.Terms(col), lane, c);
  }

  // ---------------------------------------------------------------------------------------
  // The loops of one lane
  // ---------------------------------------------------------------------------------------

  lemma NothingSummed(p: Problem, cols: seq<nat>, width: nat, lane: nat)
    requires LaneWidth(width)
    ensures forall i :: 0 <= i < |cols| ==> LaneSum(p.Terms(cols[i]), width, lane, 0) == 0.0
  {
  }

  /** The accumulators of one lane of the one-byte kernels; `factored` selects the second formula. */
  method ByteLane(p: Problem, cols: seq<nat>, lane: nat, steps: nat, factored: bool) returns (acc: array<real>)
    requires p.Valid() && lane < 32 && 2 * steps <= p.Blocks()
    requires forall i :: 0 <= i < |cols| ==> cols[i] < p.n
    ensures fresh(acc) && acc.Length == |cols|
    ensures forall i :: 0 <= i < |cols| ==> acc[i] == LaneSum(p.Terms(cols[i]), 1, lane, steps)
  {
    hide LaneSum, LaneStep, Problem.Terms, Problem.Term, Baseline, Factored;
    NothingSummed(p, cols, 1, lane);
    acc := new real[|cols|](_ => 0.0);
    var l, blockOffset := lane % 16, lane / 16;
    for b := 0 to steps
      invariant forall i :: 0 <= i < |cols| ==> acc[i] == LaneSum(p.Terms(cols[i]), 1, lane, b)
    {
      var block := 2 * b + blockOffset;
      var low, high := p.input[block * 32 + l], p.input[block * 32 + l + 16];
      for i := 0 to |cols|
        invariant forall j :: 0 <= j < i ==> acc[j] == LaneSum(p.Terms(cols[j]), 1, lane, b + 1)
        invariant forall j :: i <= j < |cols| ==> acc[j] == LaneSum(p.Terms(cols[j]), 1, lane, b)
      {
        var blk := p.BlockStart(cols[i], block);
        var scale := p.half(p.weight[blk], p.weight[blk + 1]);
        var packed := p.weight[blk + 2 + l];
        ByteStep(p, cols[i], lane, b);
        ByteFormulas(scale, low, high, packed);
        acc[i] := acc[i] + if factored then Factored(scale, low, high, packed) else Baseline(scale, low, high, packed);
      }
    }
  }

  /** The accumulators of one lane of the two-byte kernel. */
  method PairLane(p: Problem, cols: seq<nat>, lane: nat, steps: nat) returns (acc: array<real>)
    requires p.Valid() && lane < 32 && 4 * steps <= p.Blocks()
    requires forall i :: 0 <= i < |cols| ==> cols[i] < p.n
    ensures fresh(acc) && acc.Length == |cols|
    ensures forall i :: 0 <= i < |cols| ==> acc[i] == LaneSum(p.Terms(cols[i]), 2, lane, steps)
  {
    hide LaneSum, LaneStep, Problem.Terms, Problem.Term, Pair, Halfword;
    NothingSummed(p, cols, 2, lane);
    acc := new real[|cols|](_ => 0.0);
    var sub, t := lane / 8, lane % 8;
    var byteOffset := 2 + 2 * t;
    for c := 0 to steps
      invariant forall i :: 0 <= i < |cols| ==> acc[i] == LaneSum(p.Terms(cols[i]), 2, lane, c)
    {
      var block := 4 * c + sub;
      var k := block * 32 + 2 * t;
      var a0lo, a0hi := p.input[k], p.input[k + 16];
      var a1lo, a1hi := p.input[k + 1], p.input[k + 17];
      for i := 0 to |cols|
        invariant forall j :: 0 <= j < i ==> acc[j] == LaneSum(p.Terms(cols[j]), 2, lane, c + 1)
        invariant forall j :: i <= j < |cols| ==> acc[j] == LaneSum(p.Terms(cols[j]), 2, lane, c)
      {
        var blk := p.BlockStart(cols[i], block);
        var scale := p.half(p.weight[blk], p.weight[blk + 1]);
        var word := Halfword(p.weight[blk + byteOffset], p.weight[blk + byteOffset + 1]);
        PairStep(p, cols[i], lane, c);
        acc[i] := acc[i] + Pair(scale, a0lo, a0hi, a1lo, a1hi, word);
      }
    }
  }

  /** The accumulators of one lane of the four-byte kernels; a step may run over the last block only if guarded. */
  method QuadLane(p: Problem, cols: seq<nat>, lane: nat, steps: nat, guarded: bool) returns (acc: array<real>)
    requires p.Valid() && lane < 32 && (guarded || 8 * steps <= p.Blocks())
    requires forall i :: 0 <= i < |cols| ==> cols[i] < p.n
    ensures fresh(acc) && acc.Length == |cols|
    ensures forall i :: 0 <= i < |cols| ==> acc[i] == LaneSum(p.Terms(cols[i]), 4, lane, steps)
  {
    hide LaneSum, LaneStep, Problem.Terms, Problem.Term, Quad, Halfword;
    NothingSummed(p, cols, 4, lane);
    acc := new real[|cols|](_ => 0.0);
    var sub, t := lane / 4, lane % 4;
    var byteOffset := 2 + 4 * t;
    for c := 0 to steps
      invariant forall i :: 0 <= i < |cols| ==> acc[i] == LaneSum(p.Terms(cols[i]), 4, lane, c)
    {
      var block := 8 * c + sub;
      if guarded && block >= p.Blocks() {
        forall i | 0 <= i < |cols|
          ensures LaneSum(p.Terms(cols[i]), 4, lane, c + 1) == LaneSum(p.Terms(cols[i]), 4, lane, c)
        {
          GuardedOut(p, cols[i], lane, c);
        }
      } else {
        var k := block * 32 + 4 * t;
        var a0lo, a0hi := p.input[k], p.input[k + 16];
        var a1lo, a1hi := p.input[k + 1], p.input[k + 17];
        var a2lo, a2hi := p.input[k + 2], p.input[k + 18];
        var a3lo, a3hi := p.input[k + 3], p.input[k + 19];
        for i := 0 to |cols|
          invariant forall j :: 0 <= j < i ==> acc[j] == LaneSum(p.Terms(cols[j]), 4, lane, c + 1)
          invariant forall j :: i <= j < |cols| ==> acc[j] == LaneSum(p.Terms(cols[j]), 4, lane, c)
        {
          var blk := p.BlockStart(cols[i], block);
          var scale := p.half(p.weight[blk], p.weight[blk + 1]);
          var lo := Halfword(p.weight[blk + byteOffset], p.weight[blk + byteOffset + 1]);
          var hi := Halfword(p.weight[blk + byteOffset + 2], p.weight[blk + byteOffset + 3]);
          QuadStep(p, cols[i], lane, c);
          acc[i] := acc[i] + Quad(scale, a0lo, a0hi, a1lo, a1hi, a2lo, a2hi, a3lo, a3hi, lo, hi);
        }
      }
    }
  }
}
