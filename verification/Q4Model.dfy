/**
 Q4_0 weights and what a decode kernel has to compute from them. A block stores a half-precision
 scale and 32 four-bit weights biased by 8: byte j of the block holds weights j and j + 16.
 Arithmetic is exact; `half` is whatever value the two scale bytes stand for.
 */
module Q4Model {
  import opened Bytes
  import opened Sums
  import opened LaneCover

  const BLOCK_BYTES := 18

  lemma BlockFits(col: nat, n: nat, b: nat, blocks: nat)
    requires col < n && b < blocks
    ensures (col * blocks + b) * BLOCK_BYTES + BLOCK_BYTES <= n * blocks * BLOCK_BYTES
    ensures (col * blocks + b) * BLOCK_BYTES == col * (blocks * BLOCK_BYTES) + b * BLOCK_BYTES
  {
    assert (col + 1) * blocks <= n * blocks;
    assert col * (blocks * BLOCK_BYTES) == col * blocks * BLOCK_BYTES;
  }

  /** One m = 1 projection: `n` columns of `k / 32` blocks each, against one row of activations. */
  datatype Problem = Problem(half: (Byte, Byte) -> real, weight: Bytes, input: seq<real>, n: nat, k: nat) {
    predicate Valid() {
      |weight| == n * Blocks() * BLOCK_BYTES && |input| == k
    }

    function Blocks(): nat {
      k / 32
    }

    /** Where block `b` of column `col` starts: inside the buffer, with all of its bytes. */
    function BlockStart(col: nat, b: nat): (o: nat)
      requires Valid() && col < n && b < Blocks()
      ensures o + BLOCK_BYTES <= |weight|
      ensures o == col * (Blocks() * BLOCK_BYTES) + b * BLOCK_BYTES
    {
      BlockFits(col, n, b, Blocks());
      (col * Blocks() + b) * BLOCK_BYTES
    }

    function Scale(col: nat, b: nat): real
      requires Valid() && col < n && b < Blocks()
    {
      half(weight[BlockStart(col, b)], weight[BlockStart(col, b) + 1])
    }

    function Packed(col: nat, b: nat, j: nat): Byte
      requires Valid() && col < n && b < Blocks() && j < 16
    {
      weight[BlockStart(col, b) + 2 + j]
    }

    /** The two products that byte `j` of a block contributes; nothing outside the matrix. */
    function Term(col: int, b: int, j: int): real {
      if Valid() && 0 <= col < n && 0 <= b < Blocks() && 0 <= j < 16 then
        Scale(col, b) * (input[32 * b + j] * Low(Packed(col, b, j)) + input[32 * b + j + 16] * High(Packed(col, b, j)))
      else 0.0
    }

    function Terms(col: int): (int, int) -> real {
      (b, j) => Term(col, b, j)
    }

    /** The first `count` blocks of a column, one after the other. */
    function Dot(col: int, count: nat): real {
      BlockSum(Terms(col), count)
    }

    /** The dot product the projection is for. */
    function ColumnDot(col: int): real {
      Dot(col, Blocks())
    }
  }

  function Low(packed: Byte): real {
    (packed % 16 - 8) as real
  }

  function High(packed: Byte): real {
    (packed / 16 - 8) as real
  }

  /** The kernels of metal_q4_opt_probe.swift, then the linear ones of metal_gemma4_layer_probe.swift. */
  datatype Kernel =
    | BaselineX8
    | FactoredX8
    | VectorizedX8
    | Vectorized4bX8
    | Vectorized4bX16
    | LayerBaselineX8
    | LayerVectorized4bX8
  {
    /** Bytes of a block that one lane takes. */
    function Width(): (w: nat)
      ensures LaneWidth(w)
    {
      match this
      case BaselineX8 => 1
      case FactoredX8 => 1
      case VectorizedX8 => 2
      case Vectorized4bX8 => 4
      case Vectorized4bX16 => 4
      case LayerBaselineX8 => 1
      case LayerVectorized4bX8 => 4
    }

    /** Columns per SIMD group. */
    function Tile(): nat {
      if Vectorized4bX16? then 16 else 8
    }

    /** Row pointers past the last column are clamped to it. */
    predicate Clamped() {
      LayerBaselineX8? || LayerVectorized4bX8?
    }

    /** The last step is guarded block by block instead of being dropped. */
    predicate Guarded() {
      LayerVectorized4bX8?
    }

    function Steps(blocks: nat): nat {
      var c := 2 * Width();
      if Guarded() then (blocks + c - 1) / c else blocks / c
    }

    /** How many blocks the steps of all lanes visit, counting guarded-out ones. */
    function Visited(blocks: nat): nat {
      2 * Width() * Steps(blocks)
    }

    /** The SIMD groups may read every column their tile names. */
    predicate InBounds(n: nat) {
      Clamped() || n % Tile() == 0
    }
  }

  // ---------------------------------------------------------------------------------------
  // The product, index by index
  // ---------------------------------------------------------------------------------------

  /**
   Byte j of the block at byte `o` against the activations from `i` on: the scale of the block's first two
   bytes times the low half of byte 2 + j, less 8, with activation j and its high half, less 8, with
   activation j + 16.
   */
  function Contribution(half: (Byte, Byte) -> real, w: Bytes, o: int, x: seq<real>, i: int, j: int): real {
    if 0 <= o && o + 18 <= |w| && 0 <= i && i + 32 <= |x| && 0 <= j < 16 then
      var packed: int := w[o + 2 + j];
      half(w[o], w[o + 1]) * (x[i + j] * (packed % 16 - 8) as real + x[i + j + 16] * (packed / 16 - 8) as real)
    else 0.0
  }

  /** The block at byte `o` against the activations from `i` on. */
  function BlockProduct(half: (Byte, Byte) -> real, w: Bytes, o: int, x: seq<real>, i: int): real {
    Sum(16, j => Contribution(half, w, o, x, i, j))
  }

  /** Column `col` of a matrix of `blocks` blocks of 18 bytes a column, against the activations from `start` on. */
  function MatrixColumn(half: (Byte, Byte) -> real, w: Bytes, col: int, blocks: nat, x: seq<real>, start: int): real {
    Sum(blocks, b => BlockProduct(half, w, (col * blocks + b) * 18, x, start + 32 * b))
  }

  /** What the kernels are for, index by index. */
  lemma ColumnDotIs(p: Problem, col: nat, x: seq<real>, start: nat)
    requires p.Valid() && col < p.n && start + p.k <= |x| && p.input == x[start..start + p.k]
    ensures p.ColumnDot(col) == MatrixColumn(p.half, p.weight, col, p.k / 32, x, start)
  {
    ColumnIs(p, col, p.k / 32, x, start);
  }

  lemma ColumnIs(p: Problem, col: nat, blocks: nat, x: seq<real>, start: nat)
    requires p.Valid() && col < p.n && start + p.k <= |x| && p.input == x[start..start + p.k] && blocks == p.Blocks()
    ensures p.ColumnDot(col) == MatrixColumn(p.half, p.weight, col, blocks, x, start)
  {
    hide *;
    DotIsBlockSum(p, col);
    forall b: nat | b < blocks
      ensures BlockOfTerms(p.Terms(col), b) == BlockProduct(p.half, p.weight, (col * blocks + b) * 18, x, start + 32 * b)
    {
      BlockIs(p, col, blocks, b, (col * blocks + b) * 18, x, start);
    }
    SameColumn(p.Terms(col), p.half, p.weight, col, blocks, x, start);
  }

  lemma SameColumn(t: (int, int) -> real, half: (Byte, Byte) -> real, w: Bytes, col: nat, blocks: nat, x: seq<real>,
                   start: nat)
    requires forall b: nat :: b < blocks ==> BlockOfTerms(t, b) == BlockProduct(half, w, (col * blocks + b) * 18, x, start + 32 * b)
    ensures BlockSum(t, blocks) == MatrixColumn(half, w, col, blocks, x, start)
  {
    hide BlockOfTerms, BlockProduct, BlockSum;
    ColumnOfBlocks(t, blocks);
    SumEqual(blocks, b => BlockOfTerms(t, b), b => BlockProduct(half, w, (col * blocks + b) * 18, x, start + 32 * b));
  }

  function BlockOfTerms(t: (int, int) -> real, b: int): real {
    Sum(16, j => t(b, j))
  }

  lemma ColumnOfBlocks(t: (int, int) -> real, count: nat)
    ensures BlockSum(t, count) == Sum(count, b => BlockOfTerms(t, b))
  {
    SumEqual(count, b => Sum(16, j => t(b, j)), b => BlockOfTerms(t, b));
  }

  lemma BlockIs(p: Problem, col: nat, blocks: nat, b: nat, o: nat, x: seq<real>, start: nat)
    requires p.Valid() && col < p.n && start + p.k <= |x| && p.input == x[start..start + p.k]
    requires blocks == p.Blocks() && b < blocks && o == (col * blocks + b) * 18
    ensures BlockOfTerms(p.Terms(col), b) == BlockProduct(p.half, p.weight, o, x, start + 32 * b)
  {
    var f := j => p.Terms(col)(b, j);
    var g := j => Contribution(p.half, p.weight, o, x, start + 32 * b, j);
    hide Contribution, Problem.Terms, Sum, Problem.Valid, Problem.Blocks;
    forall j | 0 <= j < 16
      ensures f(j) == g(j)
    {
      TermIs(p, col, blocks, b, o, j, x, start);
    }
    SumEqual(16, f, g);
  }

  lemma TermIs(p: Problem, col: nat, blocks: nat, b: nat, o: nat, j: nat, x: seq<real>, start: nat)
    requires p.Valid() && col < p.n && start + p.k <= |x| && p.input == x[start..start + p.k] && j < 16
    requires blocks == p.Blocks() && b < blocks && o == (col * blocks + b) * 18
    ensures p.Terms(col)(b, j) == Contribution(p.half, p.weight, o, x, start + 32 * b, j)
  {
    BlockFits(col, p.n, b, blocks);
    assert 32 * b + 32 <= p.k;
    assert p.input[32 * b + j] == x[start + 32 * b + j] && p.input[32 * b + j + 16] == x[start + 32 * b + j + 16];
  }

  // ---------------------------------------------------------------------------------------
  // When the visited blocks are all blocks
  // ---------------------------------------------------------------------------------------

  /** A guarded kernel always computes the dot product, the others when no partial step is dropped. */
  lemma KernelComputesDot(kernel: Kernel, p: Problem, col: nat)
    requires kernel.Guarded() || p.Blocks() % (2 * kernel.Width()) == 0
    ensures p.Dot(col, kernel.Visited(p.Blocks())) == p.ColumnDot(col)
  {
    DotIsBlockSum(p, col);
    hide *;
    if kernel.Guarded() {
      GuardedVisitsAll(kernel, p.Blocks());
      NoTermsBeyond(p, col);
      EmptyTail(p.Terms(col), p.Blocks(), kernel.Visited(p.Blocks()));
    } else {
      UnguardedVisitsAll(kernel, p.Blocks());
    }
  }

  lemma DotIsBlockSum(p: Problem, col: int)
    ensures forall count: nat :: p.Dot(col, count) == BlockSum(p.Terms(col), count)
    ensures p.ColumnDot(col) == p.Dot(col, p.Blocks())
  {
    hide BlockSum;
  }

  lemma NoTermsBeyond(p: Problem, col: int)
    ensures forall b, j :: p.Blocks() <= b ==> p.Terms(col)(b, j) == 0.0
  {
  }

  lemma GuardedVisitsAll(kernel: Kernel, blocks: nat)
    requires kernel.Guarded()
    ensures blocks <= kernel.Visited(blocks)
  {
  }

  lemma UnguardedVisitsAll(kernel: Kernel, blocks: nat)
    requires !kernel.Guarded() && blocks % (2 * kernel.Width()) == 0
    ensures kernel.Visited(blocks) == blocks
  {
  }

  /** Unit activations against weights that are all the scale of the bytes `b0` and `b1`. */
  function Ones(half: (Byte, Byte) -> real, b0: Byte, b1: Byte, n: nat, k: nat): (p: Problem)
    ensures p.Valid() && p.half == half && p.n == n && p.k == k
  {
    Problem(half, seq(n * (k / 32) * BLOCK_BYTES, i requires 0 <= i => OnesByte(b0, b1, i)), seq(k, _ => 1.0), n, k)
  }

  /** Every block is the two scale bytes and sixteen bytes 0x99. */
  function OnesByte(b0: Byte, b1: Byte, i: nat): Byte {
    if i % BLOCK_BYTES == 0 then b0 else if i % BLOCK_BYTES == 1 then b1 else 0x99
  }

  lemma BytesOfBlock(b0: Byte, b1: Byte, block: nat, j: nat)
    requires j < 16
    ensures OnesByte(b0, b1, block * BLOCK_BYTES) == b0 && OnesByte(b0, b1, block * BLOCK_BYTES + 1) == b1
    ensures OnesByte(b0, b1, block * BLOCK_BYTES + 2 + j) == 0x99
  {
  }

  lemma OnesTerm(half: (Byte, Byte) -> real, b0: Byte, b1: Byte, n: nat, k: nat, col: nat, b: nat, j: nat)
    requires col < n && b < k / 32 && j < 16
    ensures Ones(half, b0, b1, n, k).Term(col, b, j) == 2.0 * half(b0, b1)
  {
    var p := Ones(half, b0, b1, n, k);
    BytesOfBlock(b0, b1, col * p.Blocks() + b, j);
    hide OnesByte;
    assert p.BlockStart(col, b) == (col * p.Blocks() + b) * BLOCK_BYTES;
    assert p.Packed(col, b, j) == 0x99;
    assert p.Scale(col, b) == half(b0, b1);
    hide Problem.Packed, Problem.Scale, Problem.BlockStart;
    assert p.Terms(col)(b, j) == p.Term(col, b, j);
  }

  lemma {:induction false} OnesDot(half: (Byte, Byte) -> real, b0: Byte, b1: Byte, n: nat, k: nat, col: nat, count: nat)
    requires col < n && count <= k / 32
    ensures Ones(half, b0, b1, n, k).Dot(col, count) == count as real * (32.0 * half(b0, b1))
  {
    hide Sum, Ones, OnesByte;
    var p, x := Ones(half, b0, b1, n, k), half(b0, b1);
    var t := p.Terms(col);
    var d := b => Sum(16, j => t(b, j));
    forall b | 0 <= b < count
      ensures d(b) == (b => 32.0 * x)(b)
    {
      var two := (j: int) => 2.0 * x;
      forall j | 0 <= j < 16
        ensures t(b, j) == two(j)
      {
        OnesTerm(half, b0, b1, n, k, col, b, j);
      }
      SumEqual(16, j => t(b, j), two);
      SumOfConstant(16, 2.0 * x);
    }
    SumEqual(count, d, b => 32.0 * x);
    SumOfConstant(count, 32.0 * x);
  }

  lemma {:induction false} SumOfConstant(n: nat, x: real)
    ensures Sum(n, i => x) == n as real * x
  {
    if n > 0 {
      SumOfConstant(n - 1, x);
      var f := (i: int) => x;
      assert Sum(n, f) == Sum(n - 1, f) + f(n - 1);
      var before := (n - 1) as real;
      assert n as real == before + 1.0;
      assert (before + 1.0) * x == before * x + x;
    }
  }

  /** A decoding of scales that is not always zero. */
  ghost predicate SomeScale(half: (Byte, Byte) -> real) {
    exists b0: Byte, b1: Byte :: half(b0, b1) != 0.0
  }

  lemma NoScaleNoDot(p: Problem, col: int, count: nat)
    requires !SomeScale(p.half)
    ensures p.Dot(col, count) == 0.0
  {
    var t := p.Terms(col);
    var d := b => Sum(16, j => t(b, j));
    forall b | 0 <= b < count
      ensures d(b) == 0.0
    {
      SumZero(16, j => t(b, j));
    }
    SumZero(count, d);
  }

  /** A shape whose last blocks are dropped, and a scale that is not zero: unit weights show the difference. */
  lemma TailMatters(kernel: Kernel, half: (Byte, Byte) -> real, n: nat, k: nat) returns (p: Problem)
    requires n > 0 && SomeScale(half) && !kernel.Guarded() && k / 32 % (2 * kernel.Width()) != 0
    ensures p.Valid() && p.half == half && p.n == n && p.k == k
    ensures p.Dot(0, kernel.Visited(k / 32)) != p.ColumnDot(0)
  {
    var b0: Byte, b1: Byte :| half(b0, b1) != 0.0;
    p := Ones(half, b0, b1, n, k);
    UnguardedDropsTail(kernel, k / 32);
    OnesDiffer(half, b0, b1, n, k, kernel.Visited(k / 32));
    DotIsBlockSum(p, 0);
    hide *;
  }

  lemma OnesDiffer(half: (Byte, Byte) -> real, b0: Byte, b1: Byte, n: nat, k: nat, count: nat)
    requires n > 0 && half(b0, b1) != 0.0 && count < k / 32
    ensures Ones(half, b0, b1, n, k).Dot(0, count) != Ones(half, b0, b1, n, k).Dot(0, k / 32)
  {
    hide *;
    OnesDot(half, b0, b1, n, k, 0, count);
    OnesDot(half, b0, b1, n, k, 0, k / 32);
    Unequal(count, k / 32, 32.0 * half(b0, b1));
  }

  lemma Unequal(a: nat, b: nat, x: real)
    requires a < b && x != 0.0
    ensures a as real * x != b as real * x
  {
    assert (b as real - a as real) * x != 0.0;
  }

  /**
   With the decoding of scales fixed, a kernel computes every dot product of a shape exactly when it is
   guarded, its steps divide the block count, or every scale decodes to zero; otherwise there are
   weights and activations on which it drops blocks that matter.
   */
  lemma KernelExactness(kernel: Kernel, half: (Byte, Byte) -> real, n: nat, k: nat)
    requires n > 0
    ensures (forall p: Problem, col: nat :: p.Valid() && p.half == half && p.n == n && p.k == k && col < n
               ==> p.Dot(col, kernel.Visited(k / 32)) == p.ColumnDot(col))
            <==> (kernel.Guarded() || k / 32 % (2 * kernel.Width()) == 0 || !SomeScale(half))
  {
    if kernel.Guarded() || k / 32 % (2 * kernel.Width()) == 0 || !SomeScale(half) {
      forall p: Problem, col: nat | p.Valid() && p.half == half && p.n == n && p.k == k && col < n
        ensures p.Dot(col, kernel.Visited(k / 32)) == p.ColumnDot(col)
      {
        if SomeScale(half) {
          KernelComputesDot(kernel, p, col);
        } else {
          NoScaleNoDot(p, col, kernel.Visited(k / 32));
          NoScaleNoDot(p, col, p.Blocks());
          DotIsBlockSum(p, col);
        }
      }
    } else {
      var p := TailMatters(kernel, half, n, k);
      hide Problem.Dot, Problem.ColumnDot, Problem.Valid, Kernel.Visited, SomeScale;
      assert p.Valid() && p.half == half && p.n == n && p.k == k;
      assert p.Dot(0, kernel.Visited(k / 32)) != p.ColumnDot(0);
    }
  }

  lemma UnguardedDropsTail(kernel: Kernel, blocks: nat)
    requires !kernel.Guarded() && blocks % (2 * kernel.Width()) != 0
    ensures kernel.Visited(blocks) < blocks
  {
  }

  lemma TwoBlocks(k: nat)
    requires k % 32 == 0
    ensures k / 32 % 2 == 0 <==> k % 64 == 0
  {
    var q, r := k / 32 / 2, k / 32 % 2;
    assert k == 64 * q + 32 * r;
  }

  lemma FourBlocks(k: nat)
    requires k % 32 == 0
    ensures k / 32 % 4 == 0 <==> k % 128 == 0
  {
    var q, r := k / 32 / 4, k / 32 % 4;
    assert k == 128 * q + 32 * r;
  }

  lemma EightBlocks(k: nat)
    requires k % 32 == 0
    ensures k / 32 % 8 == 0 <==> k % 256 == 0
  {
    var q, r := k / 32 / 8, k / 32 % 8;
    assert k == 256 * q + 32 * r;
  }

  /** Whether the kernel's steps make up `k`, by its own number. */
  predicate Suits(kernel: Kernel, k: nat) {
    match kernel
    case BaselineX8 => k % 64 == 0
    case FactoredX8 => k % 64 == 0
    case VectorizedX8 => k % 128 == 0
    case Vectorized4bX8 => k % 256 == 0
    case Vectorized4bX16 => k % 256 == 0
    case LayerBaselineX8 => k % 64 == 0
    case LayerVectorized4bX8 => true
  }

  lemma SuitsExactly(kernel: Kernel, k: nat)
    requires k % 32 == 0
    ensures kernel.Guarded() || k / 32 % (2 * kernel.Width()) == 0 <==> Suits(kernel, k)
  {
    TwoBlocks(k);
    FourBlocks(k);
    EightBlocks(k);
  }

  /**
   The shapes each kernel is good for, when some scale is not zero: k a multiple of 64 for the kernels
   that take a byte a lane, of 128 for the one that takes two, of 256 for the unguarded ones that take
   four; n a multiple of 8, or of 16 for the wide one, except in the layer probe.
   */
  lemma ShapesOfKernels(kernel: Kernel, half: (Byte, Byte) -> real, n: nat, k: nat)
    requires n > 0 && k % 32 == 0 && SomeScale(half)
    ensures (forall p: Problem, col: nat :: p.Valid() && p.half == half && p.n == n && p.k == k && col < n
               ==> p.Dot(col, kernel.Visited(k / 32)) == p.ColumnDot(col))
            <==> Suits(kernel, k)
    ensures kernel.InBounds(n)
       <==> match kernel
            case Vectorized4bX16 => n % 16 == 0
            case LayerBaselineX8 => true
            case LayerVectorized4bX8 => true
            case _ => n % 8 == 0
  {
    SuitsExactly(kernel, k);
    BoundsExactly(kernel, n);
    hide *;
    KernelExactness(kernel, half, n, k);
  }

  lemma BoundsExactly(kernel: Kernel, n: nat)
    ensures kernel.InBounds(n)
       <==> match kernel
            case Vectorized4bX16 => n % 16 == 0
            case LayerBaselineX8 => true
            case LayerVectorized4bX8 => true
            case _ => n % 8 == 0
  {
  }
}
