/**
 How 32 SIMD lanes share a sum over blocks of 16 terms. Each lane takes `width` terms of a block,
 so 16 / width lanes share a block and 2 * width blocks are in flight per step.
 */
module LaneCover {
  import opened Sums

  predicate LaneWidth(width: nat) {
    width == 1 || width == 2 || width == 4
  }

  function LaneStep(t: (int, int) -> real, width: nat, lane: int, c: int): real
    requires LaneWidth(width)
  {
    var perBlock := 16 / width;
    Sum(width, i => t(2 * width * c + lane / perBlock, width * (lane % perBlock) + i))
  }

  /** What one lane adds up in `steps` steps. */
  function LaneSum(t: (int, int) -> real, width: nat, lane: int, steps: nat): real
    requires LaneWidth(width)
  {
    Sum(steps, c => LaneStep(t, width, lane, c))
  }

  /** `count` whole blocks, one after the other. */
  function BlockSum(t: (int, int) -> real, count: nat): real {
    Sum(count, b => Sum(16, j => t(b, j)))
  }

  /** The lanes that share a block cover its 16 terms. */
  lemma BlockCovered(t: (int, int) -> real, width: nat, b: int)
    requires LaneWidth(width)
    ensures Sum(16 / width, v => Sum(width, i => t(b, width * v + i))) == Sum(16, j => t(b, j))
  {
    hide Sum;
    var f := j => t(b, j);
    SumBlocks(16 / width, width, f);
    forall v | 0 <= v < 16 / width
      ensures Sum(width, i => f(v * width + i)) == Sum(width, i => t(b, width * v + i))
    {
      SumEqual(width, i => f(v * width + i), i => t(b, width * v + i));
    }
    SumEqual(16 / width, v => Sum(width, i => f(v * width + i)), v => Sum(width, i => t(b, width * v + i)));
    assert 16 / width * width == 16;
  }

  lemma LaneOfBlock(width: nat, u: int, v: int)
    requires LaneWidth(width) && 0 <= v < 16 / width
    ensures (u * (16 / width) + v) / (16 / width) == u
    ensures (u * (16 / width) + v) % (16 / width) == v
  {
    if width == 1 {
    } else if width == 2 {
    } else {
    }
  }

  /** In one step the 32 lanes cover `2 * width` whole blocks. */
  lemma StepCovered(t: (int, int) -> real, width: nat, c: int)
    requires LaneWidth(width)
    ensures Sum(32, lane => LaneStep(t, width, lane, c))
         == Sum(2 * width, u => Sum(16, j => t(2 * width * c + u, j)))
  {
    hide Sum;
    var perBlock := 16 / width;
    var g := lane => LaneStep(t, width, lane, c);
    var h := u => Sum(16, j => t(2 * width * c + u, j));
    SumBlocks(2 * width, perBlock, g);
    forall u | 0 <= u < 2 * width
      ensures Sum(perBlock, v => g(u * perBlock + v)) == h(u)
    {
      var b := 2 * width * c + u;
      var part := v => Sum(width, i => t(b, width * v + i));
      forall v | 0 <= v < perBlock
        ensures g(u * perBlock + v) == part(v)
      {
        LaneOfBlock(width, u, v);
      }
      SumEqual(perBlock, v => g(u * perBlock + v), part);
      BlockCovered(t, width, b);
    }
    SumEqual(2 * width, u => Sum(perBlock, v => g(u * perBlock + v)), h);
    assert 2 * width * perBlock == 32;
  }

  /** After `steps` steps the 32 lane accumulators add up to the first `2 * width * steps` blocks. */
  lemma LanesCover(t: (int, int) -> real, width: nat, steps: nat)
    requires LaneWidth(width)
    ensures Sum(32, lane => LaneSum(t, width, lane, steps)) == BlockSum(t, 2 * width * steps)
  {
    hide Sum;
    var lanes: nat := 32;
    var f := (lane: int, c: int) => LaneStep(t, width, lane, c);
    SumSwap(lanes, steps, f);
    var d := b => Sum(16, j => t(b, j));
    forall c | 0 <= c < steps
      ensures Sum(lanes, lane => f(lane, c)) == Sum(2 * width, u => d(c * (2 * width) + u))
    {
      StepCovered(t, width, c);
      SumEqual(lanes, lane => f(lane, c), lane => LaneStep(t, width, lane, c));
      SumEqual(2 * width, u => Sum(16, j => t(2 * width * c + u, j)), u => d(c * (2 * width) + u));
    }
    SumEqual(steps, c => Sum(lanes, lane => f(lane, c)), c => Sum(2 * width, u => d(c * (2 * width) + u)));
    SumBlocks(steps, 2 * width, d);
    assert steps * (2 * width) == 2 * width * steps;
    forall lane | 0 <= lane < 32
      ensures LaneSum(t, width, lane, steps) == Sum(steps, c => f(lane, c))
    {
      SumEqual(steps, c => LaneStep(t, width, lane, c), c => f(lane, c));
    }
    SumEqual(lanes, lane => LaneSum(t, width, lane, steps), lane => Sum(steps, c => f(lane, c)));
  }

  /** Blocks past the last one that has any term add nothing: a guarded tail may run over. */
  lemma EmptyTail(t: (int, int) -> real, blocks: nat, count: nat)
    requires blocks <= count
    requires forall b, j :: blocks <= b ==> t(b, j) == 0.0
    ensures BlockSum(t, count) == BlockSum(t, blocks)
  {
    hide Sum;
    var d := b => Sum(16, j => t(b, j));
    SumConcat(blocks, count - blocks, d);
    var tail := b => d(blocks + b);
    forall b | 0 <= b < count - blocks
      ensures tail(b) == 0.0
    {
      SumZero(16, j => t(blocks + b, j));
    }
    SumZero(count - blocks, tail);
  }
}
