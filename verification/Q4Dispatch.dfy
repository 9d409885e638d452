/**
 Whole dispatches of the Q4_0 kernels: which SIMD group owns which output elements, and what the
 output buffer holds when every group has run.
 */
module Q4Dispatch {
  import opened Bytes
  import opened Sums
  import opened LaneCover
  import opened Q4Model
  import opened Q4Kernels

  /** `simd_sum` over the accumulators of the 32 lanes. */
  method SimdSum(values: seq<real>, ghost f: int -> real) returns (total: real)
    requires |values| == 32 && forall lane :: 0 <= lane < 32 ==> values[lane] == f(lane)
    ensures total == Sum(32, f)
  {
    total := 0.0;
    for lane := 0 to 32
      invariant total == Sum(lane, f)
    {
      total := total + values[lane];
    }
  }

  /** The column a row pointer of a tile points at: the kernels that clamp hold it at the last one. */
  function ColumnRead(kernel: Kernel, n: nat, base: nat, i: nat): nat
    requires n > 0
  {
    if kernel.Clamped() && base + i >= n then n - 1 else base + i
  }

  /** The tiles that start inside the matrix read no column outside it exactly when they clamp or divide it. */
  lemma ReadsStayInside(kernel: Kernel, n: nat)
    requires n > 0
    ensures (forall q: nat, i: nat :: q * kernel.Tile() < n && i < kernel.Tile() ==>
               ColumnRead(kernel, n, q * kernel.Tile(), i) < n)
            <==> kernel.InBounds(n)
  {
    if kernel.InBounds(n) {
      forall q: nat, i: nat | q * kernel.Tile() < n && i < kernel.Tile()
        ensures ColumnRead(kernel, n, q * kernel.Tile(), i) < n
      {
        ReadInside(kernel, n, q, q * kernel.Tile(), i);
      }
    } else {
      var last := TileSticksOut(n, kernel.Tile());
      assert !(ColumnRead(kernel, n, last * kernel.Tile(), kernel.Tile() - 1) < n);
    }
  }

  lemma ReadInside(kernel: Kernel, n: nat, q: nat, base: nat, i: nat)
    requires kernel.InBounds(n) && base == q * kernel.Tile() < n && i < kernel.Tile()
    ensures ColumnRead(kernel, n, base, i) < n
  {
    if !kernel.Clamped() {
      LastTile(n, kernel.Tile(), q);
    }
  }

  lemma TileSticksOut(n: nat, tile: nat) returns (last: nat)
    requires tile > 0 && n % tile != 0
    ensures last * tile < n <= last * tile + tile - 1
  {
    last := n / tile;
    assert n == last * tile + n % tile;
  }

  lemma LastTile(n: nat, tile: nat, q: nat)
    requires tile > 0 && n % tile == 0 && q * tile < n
    ensures q * tile + tile <= n
  {
    var m := n / tile;
    assert n == m * tile;
    assert q >= m ==> q * tile >= m * tile;
    assert (q + 1) * tile <= m * tile;
  }

  /** The columns a group reads: its tile, held at the last column by the kernels that clamp. */
  function RowPointers(kernel: Kernel, n: nat, base: nat): (cols: seq<nat>)
    requires base < n && kernel.InBounds(n) && base % kernel.Tile() == 0
    ensures |cols| == kernel.Tile() && forall i :: 0 <= i < |cols| ==> cols[i] < n
    ensures forall i :: 0 <= i < |cols| && base + i < n ==> cols[i] == base + i
  {
    var tile := kernel.Tile();
    assert !kernel.Clamped() ==> base + tile <= n;
    seq(tile, i requires 0 <= i < tile => ColumnRead(kernel, n, base, i))
  }

  /** The accumulators of all lanes for all columns of one group, before `simd_sum`. */
  method Accumulate(kernel: Kernel, p: Problem, cols: seq<nat>) returns (lanes: seq<seq<real>>)
    requires p.Valid() && forall i :: 0 <= i < |cols| ==> cols[i] < p.n
    ensures |lanes| == 32 && forall lane :: 0 <= lane < 32 ==> |lanes[lane]| == |cols|
    ensures forall lane, i :: 0 <= lane < 32 && 0 <= i < |cols| ==>
              lanes[lane][i] == LaneSum(p.Terms(cols[i]), kernel.Width(), lane, kernel.Steps(p.Blocks()))
  {
    hide LaneSum, Problem.Terms;
    lanes := [];
    var steps := kernel.Steps(p.Blocks());
    for lane := 0 to 32
      invariant |lanes| == lane && forall l :: 0 <= l < lane ==> |lanes[l]| == |cols|
      invariant forall l, i :: 0 <= l < lane && 0 <= i < |cols| ==>
                  lanes[l][i] == LaneSum(p.Terms(cols[i]), kernel.Width(), l, steps)
    {
      var acc;
      match kernel {
        case BaselineX8 => acc := ByteLane(p, cols, lane, steps, false);
        case FactoredX8 => acc := ByteLane(p, cols, lane, steps, true);
        case VectorizedX8 => acc := PairLane(p, cols, lane, steps);
        case Vectorized4bX8 => acc := QuadLane(p, cols, lane, steps, false);
        case Vectorized4bX16 => acc := QuadLane(p, cols, lane, steps, false);
        case LayerBaselineX8 => acc := ByteLane(p, cols, lane, steps, false);
        case LayerVectorized4bX8 => acc := QuadLane(p, cols, lane, steps, true);
      }
      lanes := lanes + [acc[..]];
    }
  }

  /** What lane 0 holds for one column after `simd_sum`. */
  method ColumnSum(kernel: Kernel, p: Problem, col: nat, accumulators: seq<real>) returns (total: real)
    requires |accumulators| == 32
    requires forall lane :: 0 <= lane < 32 ==>
               accumulators[lane] == LaneSum(p.Terms(col), kernel.Width(), lane, kernel.Steps(p.Blocks()))
    ensures total == p.Dot(col, kernel.Visited(p.Blocks()))
  {
    hide LaneSum, Sum, BlockSum;
    var t, width, steps := p.Terms(col), kernel.Width(), kernel.Steps(p.Blocks());
    total := SimdSum(accumulators, lane => LaneSum(t, width, lane, steps));
    LanesCover(t, width, steps);
  }

  method GroupSums(kernel: Kernel, p: Problem, cols: seq<nat>) returns (sums: seq<real>)
    requires p.Valid() && forall i :: 0 <= i < |cols| ==> cols[i] < p.n
    ensures |sums| == |cols|
    ensures forall i :: 0 <= i < |cols| ==> sums[i] == p.Dot(cols[i], kernel.Visited(p.Blocks()))
  {
    hide LaneSum, Problem.Terms, Problem.Dot, Kernel.Visited, Kernel.Steps;
    var lanes := Accumulate(kernel, p, cols);
    sums := [];
    for i := 0 to |cols|
      invariant |sums| == i
      invariant forall j :: 0 <= j < i ==> sums[j] == p.Dot(cols[j], kernel.Visited(p.Blocks()))
    {
      var total := ColumnSum(kernel, p, cols[i], seq(32, lane requires 0 <= lane < 32 => lanes[lane][i]));
      sums := sums + [total];
    }
  }

  /** Lane 0 stores the sums that fall inside the row. */
  method WriteBack(sums: seq<real>, base: nat, row: array<real>)
    modifies row
    ensures forall col :: 0 <= col < row.Length ==>
              row[col] == if base <= col < base + |sums| then sums[col - base] else old(row[col])
  {
    for i := 0 to |sums|
      invariant forall col :: 0 <= col < row.Length ==>
                  row[col] == if base <= col < base + i then sums[col - base] else old(row[col])
    {
      if base + i < row.Length {
        row[base + i] := sums[i];
      }
    }
  }

  /** One SIMD group of a linear kernel: columns outside its tile, and outside the matrix, stay as they are. */
  method SimdGroup(kernel: Kernel, p: Problem, simdIdx: nat, output: array<real>)
    requires p.Valid() && kernel.InBounds(p.n) && output.Length == p.n
    modifies output
    ensures var base := simdIdx * kernel.Tile();
            forall col :: 0 <= col < p.n ==>
              output[col] == if base <= col < base + kernel.Tile() then p.Dot(col, kernel.Visited(p.Blocks()))
                             else old(output[col])
  {
    var tile := kernel.Tile();
    var base := simdIdx * tile;
    if base >= p.n {
      return;
    }
    Multiple(simdIdx, tile);
    hide Problem.Dot, Kernel.Visited;
    var cols := RowPointers(kernel, p.n, base);
    hide *;
    var sums := GroupSums(kernel, p, cols);
    WriteBack(sums, base, output);
    forall col | base <= col < base + tile && col < p.n
      ensures sums[col - base] == p.Dot(col, kernel.Visited(p.Blocks()))
    {
      assert cols[col - base] == col;
    }
  }

  lemma {:induction false} Multiple(q: nat, d: nat)
    requires d > 0
    ensures q * d % d == 0 && q * d / d == q
  {
    Quotient(q * d, d, q);
  }

  lemma Quotient(x: nat, d: nat, q: nat)
    requires d > 0
    ensures x / d == q <==> q * d <= x < q * d + d
  {
    var r, m := x / d, x % d;
    assert x == r * d + m;
    if r < q {
      assert (r + 1) * d <= q * d;
    } else if r > q {
      assert (q + 1) * d <= r * d;
    }
  }

  /**
   The dispatch of metal_q4_opt_probe.swift: enough threadgroups of eight SIMD groups for every
   tile. Every column is written, and holds the blocks its kernel visits.
   */
  method Dispatch(kernel: Kernel, p: Problem, output: array<real>)
    requires p.Valid() && kernel.InBounds(p.n) && output.Length == p.n
    modifies output
    ensures forall col :: 0 <= col < p.n ==> output[col] == p.Dot(col, kernel.Visited(p.Blocks()))
    ensures kernel.Guarded() || p.Blocks() % (2 * kernel.Width()) == 0 ==>
              forall col :: 0 <= col < p.n ==> output[col] == MatrixColumn(p.half, p.weight, col, p.k / 32, p.input, 0)
  {
    hide Problem.Dot, Kernel.Visited, Problem.ColumnDot, MatrixColumn;
    var tile := kernel.Tile();
    var groups := (p.n + tile * 8 - 1) / (tile * 8);
    for simdIdx := 0 to groups * 8
      invariant forall col :: 0 <= col < p.n && col / tile < simdIdx ==>
                  output[col] == p.Dot(col, kernel.Visited(p.Blocks()))
    {
      SimdGroup(kernel, p, simdIdx, output);
      forall col | 0 <= col < p.n && col / tile < simdIdx + 1
        ensures output[col] == p.Dot(col, kernel.Visited(p.Blocks()))
      {
        Quotient(col, tile, simdIdx);
      }
    }
    forall col | 0 <= col < p.n
      ensures output[col] == p.Dot(col, kernel.Visited(p.Blocks()))
      ensures kernel.Guarded() || p.Blocks() % (2 * kernel.Width()) == 0 ==>
                output[col] == MatrixColumn(p.half, p.weight, col, p.k / 32, p.input, 0)
    {
      EveryTileIsDispatched(p.n, tile, col);
      if kernel.Guarded() || p.Blocks() % (2 * kernel.Width()) == 0 {
        assert p.input == p.input[0..p.k];
        ExactColumn(kernel, p, col, p.k / 32, p.input, 0);
      }
    }
  }

  lemma ExactColumn(kernel: Kernel, p: Problem, col: nat, blocks: nat, x: seq<real>, start: nat)
    requires p.Valid() && col < p.n && blocks == p.Blocks() && (kernel.Guarded() || blocks % (2 * kernel.Width()) == 0)
    requires start + p.k <= |x| && p.input == x[start..start + p.k]
    ensures p.Dot(col, kernel.Visited(blocks)) == MatrixColumn(p.half, p.weight, col, blocks, x, start)
  {
    hide *;
    KernelComputesDot(kernel, p, col);
    ColumnIs(p, col, blocks, x, start);
  }

  lemma EveryTileIsDispatched(n: nat, tile: nat, col: nat)
    requires col < n && (tile == 8 || tile == 16)
    ensures col / tile < (n + tile * 8 - 1) / (tile * 8) * 8
  {
  }

  // ---------------------------------------------------------------------------------------
  // The gated kernels: two weight matrices, any number of rows
  // ---------------------------------------------------------------------------------------

  /** `gelu(gate . x) * (up . x)` for every row of activations; `gelu` is left uninterpreted. */
  datatype Gated = Gated(half: (Byte, Byte) -> real, gelu: real -> real,
                         gate: Bytes, up: Bytes, input: seq<real>, m: nat, n: nat, k: nat)
  {
    predicate Valid() {
      |input| == m * k && |gate| == |up| == n * (k / 32) * BLOCK_BYTES
    }

    function Row(row: nat): (r: seq<real>)
      requires Valid() && row < m
      ensures |r| == k
    {
      RowFits(row, m, k);
      input[row * k..row * k + k]
    }

    function GateProblem(row: nat): (p: Problem)
      requires Valid() && row < m
      ensures p.Valid() && p.n == n && p.k == k
    {
      Problem(half, gate, Row(row), n, k)
    }

    function UpProblem(row: nat): (p: Problem)
      requires Valid() && row < m
      ensures p.Valid() && p.n == n && p.k == k
    {
      Problem(half, up, Row(row), n, k)
    }

    function ColumnGroups(): nat {
      (n + 7) / 8
    }

    /** Output element (row, col) when a column's dot product runs over `count` blocks. */
    function Product(row: nat, col: nat, count: nat): real
      requires Valid() && row < m
    {
      gelu(GateProblem(row).Dot(col, count)) * UpProblem(row).Dot(col, count)
    }

    /**
     What the gated projection is for: `gelu` of the gate's column times the up matrix's, both against the
     k activations from `row * k` on.
     */
    function Element(row: nat, col: nat): real {
      gelu(MatrixColumn(half, gate, col, k / 32, input, row * k)) * MatrixColumn(half, up, col, k / 32, input, row * k)
    }
  }

  lemma RowFits(row: nat, m: nat, width: nat)
    requires row < m
    ensures row * width + width <= m * width
  {
    assert (row + 1) * width <= m * width;
  }

  /** The SIMD group that writes element (row, col): the row's groups come before those of the next row. */
  function Owner(g: Gated, row: nat, col: nat): nat {
    row * g.ColumnGroups() + col / 8
  }

  /** A group writes the elements it owns and no others; the index split of the kernels is exact. */
  lemma OwnerIsUnique(g: Gated, simdIdx: nat, row: nat, col: nat)
    requires row < g.m && col < g.n
    ensures Owner(g, row, col) < g.m * g.ColumnGroups()
    ensures var r := simdIdx / g.ColumnGroups();
            var base := (simdIdx - r * g.ColumnGroups()) * 8;
            (r == row && base <= col < base + 8) <==> simdIdx == Owner(g, row, col)
  {
    var groups := g.ColumnGroups();
    assert col / 8 < groups;
    RowFits(row, g.m, groups);
    Quotient(simdIdx, groups, row);
    var r := simdIdx / groups;
    var group := simdIdx - r * groups;
    Quotient(col, 8, group);
    Quotient(Owner(g, row, col), groups, row);
  }

  /** Where element (row, col) is in the output buffer. */
  function At(g: Gated, row: nat, col: nat): (j: nat) {
    row * g.n + col
  }

  /** The rows of the buffer follow each other without overlap. */
  lemma RowsApart(n: nat, row: nat, r: nat, start: nat, other: nat)
    requires start == row * n && other == r * n
    ensures row == r ==> start == other
    ensures r < row ==> other + n <= start
    ensures row < r ==> start + n <= other
  {
    if r < row {
      RowFits(r, row, n);
    } else if row < r {
      RowFits(row, r, n);
    }
  }

  /** Elements of different rows do not overlap, and every one is inside the buffer. */
  lemma ElementsAreApart(g: Gated, row: nat, col: nat, r: nat, c: nat)
    requires row < g.m && col < g.n && r < g.m && c < g.n
    ensures At(g, row, col) < g.m * g.n
    ensures At(g, row, col) == At(g, r, c) <==> row == r && col == c
  {
    RowFits(row, g.m, g.n);
    RowsApart(g.n, row, r, row * g.n, r * g.n);
  }

  /** A stretch of eight columns of the row at `start`, seen from element c of the row at `other`. */
  lemma TileSpan(n: nat, start: nat, base: nat, other: nat, c: nat)
    requires base < n && c < n
    requires start == other || other + n <= start || start + n <= other
    ensures start + base <= other + c < start + base + 8 && other + c < start + n
        <==> start == other && base <= c < base + 8
  {
  }

  /** A tile of one row, in the buffer. */
  lemma TileInBuffer(g: Gated, row: nat, start: nat, base: nat, r: nat, c: nat)
    requires row < g.m && base < g.n && r < g.m && c < g.n && start == row * g.n
    ensures At(g, r, c) < g.m * g.n
    ensures start + base <= At(g, r, c) < start + base + 8 && At(g, r, c) < start + g.n
        <==> r == row && base <= c < base + 8
    ensures r == row ==> At(g, r, c) == start + c
  {
    var other := r * g.n;
    RowFits(r, g.m, g.n);
    RowsApart(g.n, row, r, start, other);
    TileSpan(g.n, start, base, other, c);
  }

  /** One SIMD group of a gated kernel. */
  method GatedGroup(kernel: Kernel, g: Gated, simdIdx: nat, product: array<real>)
    requires g.Valid() && g.n > 0 && kernel.Clamped() && product.Length == g.m * g.n
    modifies product
    ensures forall row, col :: 0 <= row < g.m && 0 <= col < g.n ==>
              At(g, row, col) < product.Length
              && product[At(g, row, col)]
                 == if simdIdx == Owner(g, row, col) then g.Product(row, col, kernel.Visited(g.k / 32))
                    else old(product[..])[At(g, row, col)]
  {
    hide *;
    OwnedElements(g, simdIdx);
    var groups := g.ColumnGroups();
    var row := simdIdx / groups;
    var base := (simdIdx - row * groups) * 8;
    if simdIdx < g.m * groups {
      GroupInside(g, simdIdx);
      GatedTile(kernel, g, row, base, product);
    }
  }

  lemma OwnedElements(g: Gated, simdIdx: nat)
    requires g.n > 0
    ensures g.ColumnGroups() > 0
    ensures var row := simdIdx / g.ColumnGroups();
            var base := (simdIdx - row * g.ColumnGroups()) * 8;
            forall r, c :: 0 <= r < g.m && 0 <= c < g.n ==>
              At(g, r, c) < g.m * g.n
              && ((r == row && base <= c < base + 8) <==> simdIdx == Owner(g, r, c))
              && (simdIdx >= g.m * g.ColumnGroups() ==> simdIdx != Owner(g, r, c))
  {
    hide Owner, At;
    forall r, c | 0 <= r < g.m && 0 <= c < g.n
      ensures var row := simdIdx / g.ColumnGroups();
              var base := (simdIdx - row * g.ColumnGroups()) * 8;
              At(g, r, c) < g.m * g.n
              && ((r == row && base <= c < base + 8) <==> simdIdx == Owner(g, r, c))
              && (simdIdx >= g.m * g.ColumnGroups() ==> simdIdx != Owner(g, r, c))
    {
      OwnerIsUnique(g, simdIdx, r, c);
      ElementsAreApart(g, r, c, r, c);
    }
  }

  /** The eight columns from `base` on, in one row. */
  method GatedTile(kernel: Kernel, g: Gated, row: nat, base: nat, product: array<real>)
    requires g.Valid() && kernel.Clamped() && product.Length == g.m * g.n
    requires row < g.m && base < g.n && base % 8 == 0
    modifies product
    ensures forall r, c :: 0 <= r < g.m && 0 <= c < g.n ==>
              At(g, r, c) < product.Length
              && product[At(g, r, c)]
                 == if r == row && base <= c < base + 8 then g.Product(r, c, kernel.Visited(g.k / 32))
                    else old(product[..])[At(g, r, c)]
  {
    var start := row * g.n;
    RowFits(row, g.m, g.n);
    hide Gated.Product, At;
    var gates, ups := TileSums(kernel, g, row, base);
    ghost var before := product[..];
    GatedWriteBack(g.gelu, gates, ups, start, g.n, base, product);
    hide *;
    TileWritten(g, row, start, base, kernel.Visited(g.k / 32), gates, ups, before, product[..]);
  }

  /** Both dot products of every column of a tile, for one row of activations. */
  method TileSums(kernel: Kernel, g: Gated, row: nat, base: nat) returns (gates: seq<real>, ups: seq<real>)
    requires g.Valid() && kernel.Clamped() && row < g.m && base < g.n && base % 8 == 0
    ensures |gates| == |ups| == 8
    ensures forall c :: base <= c < base + 8 && c < g.n ==>
              g.gelu(gates[c - base]) * ups[c - base] == g.Product(row, c, kernel.Visited(g.k / 32))
  {
    hide Gated.Product, Problem.Dot, Kernel.Visited, Gated.GateProblem, Gated.UpProblem;
    var cols := RowPointers(kernel, g.n, base);
    var gate, up := g.GateProblem(row), g.UpProblem(row);
    assert |cols| == 8 && gate.Blocks() == up.Blocks() == g.k / 32;
    hide *;
    gates := GroupSums(kernel, gate, cols);
    ups := GroupSums(kernel, up, cols);
    forall c | base <= c < base + 8 && c < g.n
      ensures g.gelu(gates[c - base]) * ups[c - base] == g.Product(row, c, kernel.Visited(g.k / 32))
    {
      assert cols[c - base] == c;
      ProductOfSums(g, row, c, kernel.Visited(g.k / 32));
    }
  }

  /** The elements of the matrix when a stretch of the buffer has been written. */
  lemma TileWritten(g: Gated, row: nat, start: nat, base: nat, count: nat, gates: seq<real>, ups: seq<real>,
                    before: seq<real>, after: seq<real>)
    requires g.Valid() && row < g.m && base < g.n && start == row * g.n && |gates| == |ups| == 8
    requires |before| == |after| == g.m * g.n
    requires forall c :: base <= c < base + 8 && c < g.n ==>
               g.gelu(gates[c - base]) * ups[c - base] == g.Product(row, c, count)
    requires forall j :: 0 <= j < |after| ==>
               after[j] == if start + base <= j < start + base + 8 && j < start + g.n
                           then g.gelu(gates[j - start - base]) * ups[j - start - base]
                           else before[j]
    ensures forall r, c :: 0 <= r < g.m && 0 <= c < g.n ==>
              At(g, r, c) < |after|
              && after[At(g, r, c)] == if r == row && base <= c < base + 8 then g.Product(r, c, count) else before[At(g, r, c)]
  {
    hide *;
    forall r, c | 0 <= r < g.m && 0 <= c < g.n
      ensures At(g, r, c) < |after|
      ensures after[At(g, r, c)] == if r == row && base <= c < base + 8 then g.Product(r, c, count) else before[At(g, r, c)]
    {
      TileInBuffer(g, row, start, base, r, c);
    }
  }

  /** Lane 0 stores the products that fall inside the row that starts at `start`. */
  method GatedWriteBack(gelu: real -> real, gates: seq<real>, ups: seq<real>, start: nat, n: nat, base: nat,
                        product: array<real>)
    requires |gates| == |ups| == 8 && start + n <= product.Length
    modifies product
    ensures forall j :: 0 <= j < product.Length ==>
              product[j] == if start + base <= j < start + base + 8 && j < start + n
                            then gelu(gates[j - start - base]) * ups[j - start - base]
                            else old(product[..])[j]
  {
    for i := 0 to 8
      invariant forall j :: 0 <= j < product.Length ==>
                  product[j] == if start + base <= j < start + base + i && j < start + n
                                then gelu(gates[j - start - base]) * ups[j - start - base]
                                else old(product[..])[j]
    {
      if base + i < n {
        product[start + base + i] := gelu(gates[i]) * ups[i];
      }
    }
  }

  lemma ProductOfSums(g: Gated, row: nat, col: nat, count: nat)
    requires g.Valid() && row < g.m
    ensures g.Product(row, col, count)
         == g.gelu(g.GateProblem(row).Dot(col, count)) * g.UpProblem(row).Dot(col, count)
  {
    hide Problem.Dot, Gated.Row, Gated.GateProblem, Gated.UpProblem;
  }

  lemma GroupInside(g: Gated, simdIdx: nat)
    requires g.n > 0 && simdIdx < g.m * g.ColumnGroups()
    ensures var row := simdIdx / g.ColumnGroups();
            var base := (simdIdx - row * g.ColumnGroups()) * 8;
            row < g.m && 0 <= base < g.n && base % 8 == 0
  {
    var groups := g.ColumnGroups();
    Within(simdIdx, groups, g.m);
    LastGroup(g.n, groups, simdIdx - simdIdx / groups * groups);
  }

  lemma Within(x: nat, d: nat, m: nat)
    requires d > 0 && x < m * d
    ensures x / d < m && 0 <= x - x / d * d < d
  {
    var q := x / d;
    assert x - q * d == x % d;
    assert m <= q ==> m * d <= q * d;
  }

  lemma LastGroup(n: nat, groups: nat, group: nat)
    requires groups == (n + 7) / 8 && group < groups
    ensures group * 8 < n
  {
  }

  /**
   A gated dispatch with at least `m * ceil(n / 8)` SIMD groups: each element is written by exactly one
   group, at its own place of the buffer, and the guarded kernel gets every element right.
   */
  method GatedDispatch(kernel: Kernel, g: Gated, simdGroups: nat, product: array<real>)
    requires g.Valid() && g.n > 0 && kernel.Clamped() && product.Length == g.m * g.n
    requires simdGroups >= g.m * g.ColumnGroups()
    modifies product
    ensures forall row, col :: 0 <= row < g.m && 0 <= col < g.n ==>
              At(g, row, col) < product.Length
              && product[At(g, row, col)] == g.Product(row, col, kernel.Visited(g.k / 32))
    ensures kernel.Guarded() || g.k / 32 % (2 * kernel.Width()) == 0 ==>
              forall row, col :: 0 <= row < g.m && 0 <= col < g.n ==> product[At(g, row, col)] == g.Element(row, col)
    ensures forall row, col :: 0 <= row < g.m && 0 <= col < g.n ==> At(g, row, col) == row * g.n + col
  {
    RowMajor(g);
    hide Gated.Product, Gated.Element, Kernel.Visited, Owner, At;
    forall row, col | 0 <= row < g.m && 0 <= col < g.n
      ensures At(g, row, col) < product.Length
    {
      ElementsAreApart(g, row, col, row, col);
    }
    for simdIdx := 0 to simdGroups
      invariant forall row, col :: 0 <= row < g.m && 0 <= col < g.n && Owner(g, row, col) < simdIdx ==>
                  product[At(g, row, col)] == g.Product(row, col, kernel.Visited(g.k / 32))
    {
      GatedGroup(kernel, g, simdIdx, product);
    }
    forall row, col | 0 <= row < g.m && 0 <= col < g.n
      ensures product[At(g, row, col)] == g.Product(row, col, kernel.Visited(g.k / 32))
      ensures kernel.Guarded() || g.k / 32 % (2 * kernel.Width()) == 0 ==>
                product[At(g, row, col)] == g.Element(row, col)
    {
      OwnerIsUnique(g, 0, row, col);
      if kernel.Guarded() || g.k / 32 % (2 * kernel.Width()) == 0 {
        ElementIsProduct(kernel, g, row, col);
      }
    }
  }

  lemma RowMajor(g: Gated)
    ensures forall row, col :: 0 <= row < g.m && 0 <= col < g.n ==> At(g, row, col) == row * g.n + col
  {
  }

  lemma ElementIsProduct(kernel: Kernel, g: Gated, row: nat, col: nat)
    requires g.Valid() && row < g.m && col < g.n
    requires kernel.Guarded() || g.k / 32 % (2 * kernel.Width()) == 0
    ensures g.Product(row, col, kernel.Visited(g.k / 32)) == g.Element(row, col)
  {
    hide *;
    ProductIsElement(kernel, g, row, col, row * g.k, g.k / 32);
  }

  lemma ProductIsElement(kernel: Kernel, g: Gated, row: nat, col: nat, start: nat, blocks: nat)
    requires g.Valid() && row < g.m && col < g.n && start == row * g.k && blocks == g.k / 32
    requires kernel.Guarded() || blocks % (2 * kernel.Width()) == 0
    ensures g.Product(row, col, kernel.Visited(blocks)) == g.Element(row, col)
  {
    hide *;
    RowProblems(g, row, start, blocks);
    ElementOf(g, row, col, start, blocks);
    ProductOfSums(g, row, col, kernel.Visited(blocks));
    ExactColumn(kernel, g.GateProblem(row), col, blocks, g.input, start);
    ExactColumn(kernel, g.UpProblem(row), col, blocks, g.input, start);
  }

  lemma ElementOf(g: Gated, row: nat, col: nat, start: nat, blocks: nat)
    requires start == row * g.k && blocks == g.k / 32
    ensures g.Element(row, col)
         == g.gelu(MatrixColumn(g.half, g.gate, col, blocks, g.input, start)) * MatrixColumn(g.half, g.up, col, blocks, g.input, start)
  {
    hide MatrixColumn;
  }

  /** What the two problems of a row are made of. */
  lemma RowProblems(g: Gated, row: nat, start: nat, blocks: nat)
    requires g.Valid() && row < g.m && start == row * g.k && blocks == g.k / 32
    ensures start + g.k <= |g.input|
    ensures var gate, up := g.GateProblem(row), g.UpProblem(row);
            && gate.half == up.half == g.half && gate.weight == g.gate && up.weight == g.up
            && gate.input == up.input == g.input[start..start + g.k] && gate.Blocks() == up.Blocks() == blocks
  {
    RowFits(row, g.m, g.k);
  }

  /** The probe's dispatch of one row: `(n + 63) / 64` threadgroups of eight SIMD groups write all of it. */
  method ProbeRow(kernel: Kernel, g: Gated, product: array<real>)
    requires g.Valid() && g.m == 1 && g.n > 0 && kernel.Clamped() && product.Length == g.n
    modifies product
    ensures forall col :: 0 <= col < g.n ==> product[col] == g.Product(0, col, kernel.Visited(g.k / 32))
    ensures kernel.Guarded() || g.k / 32 % (2 * kernel.Width()) == 0 ==>
              forall col :: 0 <= col < g.n ==> product[col] == g.Element(0, col)
  {
    var threadgroups := (g.n + 63) / 64;
    assert threadgroups * 8 >= g.ColumnGroups();
    hide Gated.Product, Gated.Element, Kernel.Visited;
    GatedDispatch(kernel, g, threadgroups * 8, product);
    forall col | 0 <= col < g.n
      ensures product[col] == g.Product(0, col, kernel.Visited(g.k / 32))
    {
      assert At(g, 0, col) == col;
    }
  }

  // ---------------------------------------------------------------------------------------
  // The CPU reference of the probe
  // ---------------------------------------------------------------------------------------

  /** The data the probe generates: activations x / 16 and a scale of 1 / 32 on every block. */
  ghost predicate ProbeData(p: Problem, x: seq<int>) {
    && p.Valid() && |x| == p.k
    && (forall i :: 0 <= i < p.k ==> 16.0 * p.input[i] == x[i] as real)
    && (forall col: nat, b: nat :: col < p.n && b < p.Blocks() ==> 32.0 * p.Scale(col, b) == 1.0)
  }

  lemma ProbeTerm(p: Problem, x: seq<int>, col: nat, b: nat, j: nat)
    requires ProbeData(p, x) && col < p.n && b < p.Blocks() && j < 16
    ensures 512.0 * p.Term(col, b, j)
         == (x[b * 32 + j] * (p.Packed(col, b, j) % 16 - 8)
             + x[b * 32 + j + 16] * (p.Packed(col, b, j) / 16 - 8)) as real
  {
    var q := p.Packed(col, b, j);
    var u, v := p.input[32 * b + j], p.input[32 * b + j + 16];
    var s := p.Scale(col, b);
    assert 32.0 * s == 1.0;
    var i := b * 32 + j;
    assert 16.0 * u == x[i] as real && 16.0 * v == x[i + 16] as real;
    ProbeProduct(s, u, v, x[i], x[i + 16], q % 16, q / 16);
  }

  lemma ProbeProduct(s: real, u: real, v: real, x: int, y: int, l: int, h: int)
    requires 32.0 * s == 1.0 && 16.0 * u == x as real && 16.0 * v == y as real
    ensures 512.0 * (s * (u * (l - 8) as real + v * (h - 8) as real)) == (x * (l - 8) + y * (h - 8)) as real
  {
    var l', h' := l - 8, h - 8;
    Rescale(s, u * l' as real + v * h' as real);
    assert 16.0 * (u * l' as real) == x as real * l' as real;
    assert 16.0 * (v * h' as real) == y as real * h' as real;
    assert x as real * l' as real == (x * l') as real;
    assert y as real * h' as real == (y * h') as real;
  }

  lemma Rescale(s: real, y: real)
    requires 32.0 * s == 1.0
    ensures 512.0 * (s * y) == 16.0 * y
  {
    assert 32.0 * (s * y) == (32.0 * s) * y;
  }

  /**
   The integer loop of the probe. Divided by 512 its sum is the dot product, so a kernel that visits
   all blocks agrees with it on every column.
   */
  method CpuReference(x: seq<int>, p: Problem, col: nat) returns (sum: int)
    requires ProbeData(p, x) && col < p.n
    ensures sum as real == 512.0 * p.ColumnDot(col)
  {
    sum := 0;
    var t := p.Terms(col);
    ghost var blocks := b => Sum(16, j => t(b, j));
    hide Problem.Terms, BlockSum;
    for b := 0 to p.Blocks()
      invariant sum as real == 512.0 * Sum(b, blocks)
    {
      var block := CpuBlock(x, p, col, b);
      BlockOf(p, col, b);
      hide Sum;
      sum := sum + block;
    }
    BlockSumIs(t, p.Blocks());
  }

  lemma BlockOf(p: Problem, col: nat, b: nat)
    ensures Sum(16, j => p.Term(col, b, j)) == Sum(16, j => p.Terms(col)(b, j))
  {
    var t := p.Terms(col);
    forall j | 0 <= j < 16
      ensures p.Term(col, b, j) == t(b, j)
    {
    }
    SumEqual(16, j => p.Term(col, b, j), j => t(b, j));
  }

  method CpuBlock(x: seq<int>, p: Problem, col: nat, b: nat) returns (sum: int)
    requires ProbeData(p, x) && col < p.n && b < p.Blocks()
    ensures sum as real == 512.0 * Sum(16, j => p.Term(col, b, j))
  {
    hide Problem.Term, Problem.Scale;
    sum := 0;
    var offset := p.BlockStart(col, b) + 2;
    ghost var terms := j => p.Term(col, b, j);
    for lane := 0 to 16
      invariant sum as real == 512.0 * Sum(lane, terms)
    {
      var packed: int := p.weight[offset + lane];
      ProbeTerm(p, x, col, b, lane);
      assert Sum(lane + 1, terms) == Sum(lane, terms) + terms(lane);
      sum := sum + x[b * 32 + lane] * (packed % 16 - 8);
      sum := sum + x[b * 32 + lane + 16] * (packed / 16 - 8);
    }
  }

  lemma BlockSumIs(t: (int, int) -> real, count: nat)
    ensures BlockSum(t, count) == Sum(count, b => Sum(16, j => t(b, j)))
  {
  }
}
