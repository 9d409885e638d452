/**
 `fwht128` on a matrix, along either axis, and the two-sided rotation that the converter applies to
 a weight before it is quantized: along axis 0, then along axis 1.
 */
module Rotation {
  import opened Sums
  import opened Walsh
  import opened Fwht

  type Matrix = seq<seq<real>>

  ghost predicate Shape(x: Matrix, rows: nat, cols: nat) {
    |x| == rows && forall i :: 0 <= i < rows ==> |x[i]| == cols
  }

  function ScaleMatrix(c: real, x: Matrix): (y: Matrix)
    ensures |y| == |x| && forall i :: 0 <= i < |x| ==> y[i] == Scale(c, x[i])
  {
    seq(|x|, i requires 0 <= i < |x| => Scale(c, x[i]))
  }

  /** One row of `m` blocks of 2^k numbers, transformed and scaled. */
  function RotateRow(k: nat, m: nat, c: real, row: seq<real>): (r: seq<real>)
    requires |row| == m * Pow2(k)
    ensures |r| == |row|
  {
    Scale(c, Blocks(k, m, row))
  }

  function RotateRows(k: nat, m: nat, c: real, x: Matrix): (y: Matrix)
    requires forall i :: 0 <= i < |x| ==> |x[i]| == m * Pow2(k)
    ensures |y| == |x| && forall i :: 0 <= i < |x| ==> |y[i]| == |x[i]| && y[i] == RotateRow(k, m, c, x[i])
  {
    seq(|x|, i requires 0 <= i < |x| => RotateRow(k, m, c, x[i]))
  }

  // ---------------------------------------------------------------------------------------
  // Rows laid end to end, as `reshape(-1, 128)` sees them
  // ---------------------------------------------------------------------------------------

  function Flatten(x: Matrix): seq<real> {
    if x == [] then [] else Flatten(x[..|x| - 1]) + x[|x| - 1]
  }

  lemma {:induction false} FlattenLength(x: Matrix, cols: nat)
    requires Shape(x, |x|, cols)
    ensures |Flatten(x)| == |x| * cols
  {
    if x != [] {
      FlattenLength(x[..|x| - 1], cols);
      OneBlockLess(|x|, cols);
    }
  }

  lemma PrefixSlice(a: seq<real>, b: seq<real>, from: nat, len: nat)
    requires from + len <= |a|
    ensures (a + b)[from..from + len] == a[from..from + len]
  {
  }

  lemma {:induction false} FlattenRow(x: Matrix, cols: nat, i: nat)
    requires Shape(x, |x|, cols) && i < |x|
    ensures i * cols + cols <= |Flatten(x)| && Flatten(x)[i * cols..i * cols + cols] == x[i]
  {
    var n := |x| - 1;
    FlattenLength(x, cols);
    FlattenLength(x[..n], cols);
    FlattenSnoc(x);
    hide Flatten;
    if i < n {
      FlattenRow(x[..n], cols, i);
      PrefixSlice(Flatten(x[..n]), x[n], i * cols, cols);
    } else {
      SuffixSlice(Flatten(x[..n]), x[n], i * cols, cols);
    }
  }

  lemma FlattenSnoc(x: Matrix)
    requires x != []
    ensures Flatten(x) == Flatten(x[..|x| - 1]) + x[|x| - 1]
  {
  }

  lemma SuffixSlice(a: seq<real>, b: seq<real>, from: nat, len: nat)
    requires |a| == from && |b| == len
    ensures (a + b)[from..from + len] == b
  {
  }

  lemma {:induction false} BlocksConcat(k: nat, m: nat, n: nat, a: seq<real>, b: seq<real>)
    requires |a| == m * Pow2(k) && |b| == n * Pow2(k)
    ensures |a + b| == (m + n) * Pow2(k)
    ensures Blocks(k, m + n, a + b) == Blocks(k, m, a) + Blocks(k, n, b)
  {
    hide Transform, Blocks;
    if n == 0 {
      NoBlocks(k, 0, b);
      assert a + b == a;
    } else {
      var h := Pow2(k);
      OneBlockLess(n, h);
      var u, w := b[..|b| - h], b[|b| - h..];
      BlocksConcat(k, m, n - 1, a, u);
      BlocksSnoc(k, n - 1, u, w);
      BlocksSnoc(k, m + n - 1, a + u, w);
      Reassociate(a, u, w);
      assert u + w == b;
      Reassociate(Blocks(k, m, a), Blocks(k, n - 1, u), Transform(k, w));
    }
  }

  /** No block straddles two rows, so transforming the flat buffer transforms row by row. */
  lemma {:induction false} FlatRotation(k: nat, m: nat, c: real, x: Matrix)
    requires Shape(x, |x|, m * Pow2(k))
    ensures |Flatten(x)| == (|x| * m) * Pow2(k)
    ensures Scale(c, Blocks(k, |x| * m, Flatten(x))) == Flatten(RotateRows(k, m, c, x))
  {
    hide Blocks, Scale;
    var y := RotateRows(k, m, c, x);
    if x == [] {
      NoBlocks(k, 0, Flatten(x));
    } else {
      var n := |x| - 1;
      var row := x[n];
      FlatRotation(k, m, c, x[..n]);
      OneBlockLess(|x|, m);
      BlocksConcat(k, n * m, m, Flatten(x[..n]), row);
      ScaleConcat(c, Blocks(k, n * m, Flatten(x[..n])), Blocks(k, m, row));
      assert y[..n] == RotateRows(k, m, c, x[..n]);
    }
  }

  lemma ScaleConcat(c: real, a: seq<real>, b: seq<real>)
    ensures Scale(c, a + b) == Scale(c, a) + Scale(c, b)
  {
    hide Scale;
    var l, r := Scale(c, a + b), Scale(c, a) + Scale(c, b);
    forall i | 0 <= i < |a + b|
      ensures l[i] == r[i]
    {
      assert (a + b)[i] == if i < |a| then a[i] else b[i - |a|];
    }
  }

  /** `fwht128(x, 1)`: flatten, transform in place, cut back into rows. */
  method RotateAxis1(x: Matrix, k: nat, m: nat, c: real) returns (y: Matrix)
    requires Shape(x, |x|, m * Pow2(k))
    ensures y == RotateRows(k, m, c, x)
  {
    hide RotateRow, RotateRows, Flatten, Scale, Blocks, Pow2;
    FlatRotation(k, m, c, x);
    var flat := Flatten(x);
    var v := new real[|flat|](i requires 0 <= i < |flat| => flat[i]);
    assert v[..] == flat;
    TransformRows(v, k, |x| * m, c);
    y := Cut(v[..], |x|, m * Pow2(k), RotateRows(k, m, c, x));
  }

  method Cut(flat: seq<real>, rows: nat, cols: nat, ghost x: Matrix) returns (y: Matrix)
    requires |x| == rows && (forall i :: 0 <= i < rows ==> |x[i]| == cols) && flat == Flatten(x)
    ensures y == x
  {
    y := [];
    for i := 0 to rows
      invariant y == x[..i]
    {
      FlattenRow(x, cols, i);
      y := y + [flat[i * cols..i * cols + cols]];
    }
  }

  // ---------------------------------------------------------------------------------------
  // The other axis
  // ---------------------------------------------------------------------------------------

  function Transpose(x: Matrix, rows: nat, cols: nat): (y: Matrix)
    requires |x| == rows && forall i :: 0 <= i < rows ==> |x[i]| == cols
    ensures |y| == cols && forall j :: 0 <= j < cols ==> |y[j]| == rows
    ensures forall i, j :: 0 <= i < rows && 0 <= j < cols ==> y[j][i] == x[i][j]
  {
    seq(cols, j requires 0 <= j < cols => seq(rows, i requires 0 <= i < rows => x[i][j]))
  }

  lemma TransposeTwice(x: Matrix, rows: nat, cols: nat)
    requires |x| == rows && forall i :: 0 <= i < rows ==> |x[i]| == cols
    ensures Transpose(Transpose(x, rows, cols), cols, rows) == x
  {
    var z := Transpose(Transpose(x, rows, cols), cols, rows);
    forall i | 0 <= i < rows
      ensures z[i] == x[i]
    {
    }
  }

  function RotateColumns(k: nat, m: nat, c: real, x: Matrix, cols: nat): (y: Matrix)
    requires |x| == m * Pow2(k) && forall i :: 0 <= i < |x| ==> |x[i]| == cols
    ensures |y| == |x| && forall i :: 0 <= i < |y| ==> |y[i]| == cols
  {
    Transpose(RotateRows(k, m, c, Transpose(x, |x|, cols)), cols, |x|)
  }

  /** `fwht128(x, 0)`: move the axis last, transform the rows, move it back. */
  method RotateAxis0(x: Matrix, cols: nat, k: nat, m: nat, c: real) returns (y: Matrix)
    requires Shape(x, m * Pow2(k), cols)
    ensures y == RotateColumns(k, m, c, x, cols)
  {
    var moved := RotateAxis1(Transpose(x, |x|, cols), k, m, c);
    y := Transpose(moved, cols, |x|);
  }

  // ---------------------------------------------------------------------------------------
  // Every entry of a rotated matrix
  // ---------------------------------------------------------------------------------------

  lemma {:induction false} BlockOf(k: nat, m: nat, v: seq<real>, b: nat, start: nat, h: nat)
    requires h == Pow2(k) && |v| == m * h && b < m && start == b * h
    ensures start + h <= |v| && |v[start..start + h]| == Pow2(k)
    ensures Blocks(k, m, v)[start..start + h] == Transform(k, v[start..start + h])
    decreases m
  {
    hide *;
    OneBlockLess(m, h);
    var cut := |v| - h;
    var init, last := v[..cut], v[cut..];
    assert v == init + last;
    BlocksSnoc(k, m - 1, init, last);
    if b == m - 1 {
      SuffixSlice(Blocks(k, m - 1, init), Transform(k, last), start, h);
      assert v[start..start + h] == last;
      assert Transform(k, last)[..h] == Transform(k, last);
    } else {
      BlockOf(k, m - 1, init, b, start, h);
      PrefixSlice(Blocks(k, m - 1, init), Transform(k, last), start, h);
      PrefixSlice(init, last, start, h);
    }
  }

  function Shifted(f: int -> real, start: int, q: int): real {
    f(start + q)
  }

  /** Row i of the Sylvester matrix times the 2^k numbers of `f` from `start` on. */
  function SignedSum(k: nat, i: int, f: int -> real, start: int): real {
    Sum(Pow2(k), q => Sylvester(k, i, q) * Shifted(f, start, q))
  }

  lemma SameSignedSum(k: nat, i: int, f: int -> real, from: int, g: int -> real, start: int)
    requires forall q :: 0 <= q < Pow2(k) ==> Shifted(f, from, q) == Shifted(g, start, q)
    ensures SignedSum(k, i, f, from) == SignedSum(k, i, g, start)
  {
    hide Sylvester, Pow2, Shifted;
    forall q | 0 <= q < Pow2(k)
      ensures Sylvester(k, i, q) * Shifted(f, from, q) == Sylvester(k, i, q) * Shifted(g, start, q)
    {
      SameFactor(Sylvester(k, i, q), Shifted(f, from, q), Shifted(g, start, q));
    }
    SumEqual(Pow2(k), q => Sylvester(k, i, q) * Shifted(f, from, q), q => Sylvester(k, i, q) * Shifted(g, start, q));
  }

  lemma SameFactor(a: real, x: real, y: real)
    requires x == y
    ensures a * x == a * y
  {
  }

  /** The numbers of a row by their index, and zero outside it. */
  function Along(row: seq<real>): int -> real {
    j => At(row, j)
  }

  /** Column j of a matrix by the row index, and zero outside it. */
  function Down(x: Matrix, j: int): int -> real {
    i => if 0 <= i < |x| then At(x[i], j) else 0.0
  }

  lemma EntryOfBlock(k: nat, row: seq<real>, i: nat, start: nat, h: nat)
    requires h == Pow2(k) && start + h <= |row| && i < h && |row[start..start + h]| == Pow2(k)
    ensures Transform(k, row[start..start + h])[i] == SignedSum(k, i, Along(row), start)
  {
    var block := row[start..start + h];
    TransformIsSylvester(k, block, i);
    RowProductIs(k, i, block);
    hide *;
    forall q | 0 <= q < Pow2(k)
      ensures Shifted(Along(block), 0, q) == Shifted(Along(row), start, q)
    {
      AtInside(row, start, h, q);
    }
    SameSignedSum(k, i, Along(block), 0, Along(row), start);
  }

  lemma AtInside(row: seq<real>, start: nat, h: nat, q: nat)
    requires start + h <= |row| && q < h
    ensures Shifted(Along(row[start..start + h]), 0, q) == Shifted(Along(row), start, q)
  {
  }

  lemma RowProductIs(k: nat, i: int, x: seq<real>)
    requires |x| == Pow2(k)
    ensures RowProduct(k, i, x) == SignedSum(k, i, Along(x), 0)
  {
    hide Sylvester, At, Pow2;
    SumEqual(Pow2(k), j => Sylvester(k, i, j) * At(x, j), q => Sylvester(k, i, q) * Shifted(Along(x), 0, q));
  }

  /** Entry i of block b of a rotated row: row i of the Sylvester matrix times that block, scaled. */
  lemma RowEntry(k: nat, m: nat, c: real, row: seq<real>, b: nat, i: nat, start: nat, h: nat)
    requires h == Pow2(k) && |row| == m * h && b < m && i < h && start == b * h
    ensures start + i < |RotateRow(k, m, c, row)|
    ensures RotateRow(k, m, c, row)[start + i] == c * SignedSum(k, i, Along(row), start)
  {
    hide *;
    BlockOf(k, m, row, b, start, h);
    EntryOfBlock(k, row, i, start, h);
    InSlice(Blocks(k, m, row), start, h, i);
    ScaledEntry(k, m, c, row, start + i, SignedSum(k, i, Along(row), start));
  }

  lemma InSlice(x: seq<real>, start: nat, h: nat, i: nat)
    requires start + h <= |x| && i < h
    ensures x[start..start + h][i] == x[start + i]
  {
  }

  lemma ScaledEntry(k: nat, m: nat, c: real, row: seq<real>, p: nat, v: real)
    requires |row| == m * Pow2(k) && p < |row| && Blocks(k, m, row)[p] == v
    ensures RotateRow(k, m, c, row)[p] == c * v
  {
    hide Blocks, Pow2;
    ScaleAt(c, Blocks(k, m, row), p, v);
  }

  lemma ScaleAt(c: real, x: seq<real>, i: nat, v: real)
    requires i < |x| && x[i] == v
    ensures Scale(c, x)[i] == c * v
  {
  }

  /** The same down column j when axis 0 is rotated. */
  lemma ColumnEntry(k: nat, m: nat, c: real, x: Matrix, cols: nat, b: nat, i: nat, j: nat, start: nat)
    requires |x| == m * Pow2(k) && Shape(x, |x|, cols) && b < m && i < Pow2(k) && j < cols && start == b * Pow2(k)
    ensures start + i < |x| && RotateColumns(k, m, c, x, cols)[start + i][j] == c * SignedSum(k, i, Down(x, j), start)
  {
    ShapeOf(x, |x|, cols);
    var column := Transpose(x, |x|, cols)[j];
    hide *;
    RunFits(b, m, Pow2(k));
    ColumnOfRows(k, m, c, x, cols, start + i, j);
    SameColumnSum(k, i, x, cols, j, column, start);
    RowEntryIs(k, m, c, column, b, i, start, c * SignedSum(k, i, Down(x, j), start));
  }

  lemma RowEntryIs(k: nat, m: nat, c: real, row: seq<real>, b: nat, i: nat, start: nat, w: real)
    requires |row| == m * Pow2(k) && b < m && i < Pow2(k) && start == b * Pow2(k)
    requires w == c * SignedSum(k, i, Along(row), start)
    ensures start + i < |RotateRow(k, m, c, row)| && RotateRow(k, m, c, row)[start + i] == w
  {
    hide *;
    RowEntry(k, m, c, row, b, i, start, Pow2(k));
  }

  lemma SameColumnSum(k: nat, i: int, x: Matrix, cols: nat, j: nat, column: seq<real>, start: int)
    requires Shape(x, |x|, cols) && j < cols && column == Transpose(x, |x|, cols)[j]
    ensures SignedSum(k, i, Along(column), start) == SignedSum(k, i, Down(x, j), start)
  {
    ShapeOf(x, |x|, cols);
    hide *;
    forall q | 0 <= q < Pow2(k)
      ensures Shifted(Along(column), start, q) == Shifted(Down(x, j), start, q)
    {
      ColumnIs(x, cols, j, start, q);
    }
    SameSignedSum(k, i, Along(column), start, Down(x, j), start);
  }

  lemma ColumnIs(x: Matrix, cols: nat, j: nat, start: int, q: int)
    requires Shape(x, |x|, cols) && j < cols
    ensures Shifted(Along(Transpose(x, |x|, cols)[j]), start, q) == Shifted(Down(x, j), start, q)
  {
  }

  lemma ShapeOf(x: Matrix, rows: nat, cols: nat)
    requires Shape(x, rows, cols)
    ensures |x| == rows && Shape(x, |x|, cols) && forall i :: 0 <= i < |x| ==> |x[i]| == cols
    ensures |Transpose(x, |x|, cols)| == cols && forall j :: 0 <= j < cols ==> |Transpose(x, |x|, cols)[j]| == rows
  {
  }

  lemma ColumnOfRows(k: nat, m: nat, c: real, x: Matrix, cols: nat, r: nat, j: nat)
    requires |x| == m * Pow2(k) && Shape(x, |x|, cols) && r < |x| && j < cols
    ensures |Transpose(x, |x|, cols)[j]| == m * Pow2(k)
    ensures RotateColumns(k, m, c, x, cols)[r][j] == RotateRow(k, m, c, Transpose(x, |x|, cols)[j])[r]
  {
    hide RotateRow, Pow2;
    var t := Transpose(x, |x|, cols);
    var y := RotateRows(k, m, c, t);
    assert y[j] == RotateRow(k, m, c, t[j]);
    assert RotateColumns(k, m, c, x, cols)[r][j] == y[j][r];
  }

  // ---------------------------------------------------------------------------------------
  // Undoing a rotation
  // ---------------------------------------------------------------------------------------

  lemma {:induction false} BlocksTwice(k: nat, m: nat, v: seq<real>)
    requires |v| == m * Pow2(k)
    ensures Blocks(k, m, Blocks(k, m, v)) == Scale(Pow2(k) as real, v)
  {
    hide Transform, Scale;
    if m > 0 {
      var h := Pow2(k);
      OneBlockLess(m, h);
      var u, w := v[..|v| - h], v[|v| - h..];
      assert u + w == v;
      BlocksTwice(k, m - 1, u);
      TransformTwice(k, w);
      BlocksSnoc(k, m - 1, u, w);
      BlocksSnoc(k, m - 1, Blocks(k, m - 1, u), Transform(k, w));
      ScaleConcat(h as real, u, w);
    }
  }

  lemma {:induction false} BlocksScale(k: nat, m: nat, c: real, v: seq<real>)
    requires |v| == m * Pow2(k)
    ensures Blocks(k, m, Scale(c, v)) == Scale(c, Blocks(k, m, v))
  {
    hide Transform, Scale;
    if m > 0 {
      var h := Pow2(k);
      OneBlockLess(m, h);
      var u, w := v[..|v| - h], v[|v| - h..];
      assert u + w == v;
      BlocksScale(k, m - 1, c, u);
      TransformScale(k, c, w);
      BlocksSnoc(k, m - 1, u, w);
      BlocksSnoc(k, m - 1, Scale(c, u), Scale(c, w));
      ScaleConcat(c, u, w);
      ScaleConcat(c, Blocks(k, m - 1, u), Transform(k, w));
    }
  }

  lemma ScaleScale(c: real, d: real, e: real, x: seq<real>)
    requires e == c * d
    ensures Scale(c, Scale(d, x)) == Scale(e, x)
  {
    var l, r := Scale(c, Scale(d, x)), Scale(e, x);
    forall i | 0 <= i < |x|
      ensures l[i] == r[i]
    {
      assert c * (d * x[i]) == c * d * x[i];
    }
  }

  /** Rotating a row twice scales it by `s`, the factor squared times the block length. */
  lemma RotateRowTwice(k: nat, m: nat, c: real, s: real, row: seq<real>)
    requires |row| == m * Pow2(k) && s == c * c * Pow2(k) as real
    ensures RotateRow(k, m, c, RotateRow(k, m, c, row)) == Scale(s, row)
  {
    hide Blocks, Scale;
    var b, h, cc := Blocks(k, m, row), Pow2(k) as real, c * c;
    BlocksScale(k, m, c, b);
    BlocksTwice(k, m, row);
    ScaleScale(c, c, cc, Scale(h, row));
    ScaleScale(cc, h, s, row);
  }

  lemma RotateRowScale(k: nat, m: nat, c: real, s: real, row: seq<real>)
    requires |row| == m * Pow2(k)
    ensures RotateRow(k, m, c, Scale(s, row)) == Scale(s, RotateRow(k, m, c, row))
  {
    hide Blocks, Scale;
    BlocksScale(k, m, s, row);
    ScaleScale(c, s, c * s, Blocks(k, m, row));
    ScaleScale(s, c, c * s, Blocks(k, m, row));
  }

  lemma RotateRowsTwice(k: nat, m: nat, c: real, s: real, x: Matrix)
    requires forall i :: 0 <= i < |x| ==> |x[i]| == m * Pow2(k)
    requires s == c * c * Pow2(k) as real
    ensures RotateRows(k, m, c, RotateRows(k, m, c, x)) == ScaleMatrix(s, x)
  {
    hide RotateRow, Scale;
    forall i | 0 <= i < |x|
      ensures RotateRow(k, m, c, RotateRow(k, m, c, x[i])) == Scale(s, x[i])
    {
      RotateRowTwice(k, m, c, s, x[i]);
    }
  }

  lemma RotateRowsScale(k: nat, m: nat, c: real, s: real, x: Matrix)
    requires forall i :: 0 <= i < |x| ==> |x[i]| == m * Pow2(k)
    ensures RotateRows(k, m, c, ScaleMatrix(s, x)) == ScaleMatrix(s, RotateRows(k, m, c, x))
  {
    hide RotateRow, Scale;
    forall i | 0 <= i < |x|
      ensures RotateRow(k, m, c, Scale(s, x[i])) == Scale(s, RotateRow(k, m, c, x[i]))
    {
      RotateRowScale(k, m, c, s, x[i]);
    }
  }

  lemma TransposeScale(s: real, x: Matrix, rows: nat, cols: nat)
    requires |x| == rows && forall i :: 0 <= i < rows ==> |x[i]| == cols
    ensures Transpose(ScaleMatrix(s, x), rows, cols) == ScaleMatrix(s, Transpose(x, rows, cols))
  {
    var l, r := Transpose(ScaleMatrix(s, x), rows, cols), ScaleMatrix(s, Transpose(x, rows, cols));
    forall j | 0 <= j < cols
      ensures l[j] == r[j]
    {
      forall i | 0 <= i < rows
        ensures l[j][i] == r[j][i]
      {
        assert l[j][i] == ScaleMatrix(s, x)[i][j] == Scale(s, x[i])[j];
        assert r[j][i] == s * Transpose(x, rows, cols)[j][i];
      }
    }
  }

  lemma RotateColumnsTwice(k: nat, m: nat, c: real, s: real, x: Matrix, cols: nat)
    requires |x| == m * Pow2(k) && forall i :: 0 <= i < |x| ==> |x[i]| == cols
    requires s == c * c * Pow2(k) as real
    ensures RotateColumns(k, m, c, RotateColumns(k, m, c, x, cols), cols) == ScaleMatrix(s, x)
  {
    hide RotateRows, ScaleMatrix, Transpose;
    var t := Transpose(x, |x|, cols);
    TransposeTwice(RotateRows(k, m, c, t), cols, |x|);
    RotateRowsTwice(k, m, c, s, t);
    TransposeScale(s, t, cols, |x|);
    TransposeTwice(x, |x|, cols);
  }

  lemma RotateColumnsScale(k: nat, m: nat, c: real, s: real, x: Matrix, cols: nat)
    requires |x| == m * Pow2(k) && forall i :: 0 <= i < |x| ==> |x[i]| == cols
    ensures RotateColumns(k, m, c, ScaleMatrix(s, x), cols) == ScaleMatrix(s, RotateColumns(k, m, c, x, cols))
  {
    hide RotateRows, ScaleMatrix, Transpose;
    var t := Transpose(x, |x|, cols);
    TransposeScale(s, x, |x|, cols);
    RotateRowsScale(k, m, c, s, t);
    TransposeScale(s, RotateRows(k, m, c, t), cols, |x|);
    calc {
      RotateColumns(k, m, c, ScaleMatrix(s, x), cols);
      Transpose(RotateRows(k, m, c, ScaleMatrix(s, t)), cols, |x|);
      Transpose(ScaleMatrix(s, RotateRows(k, m, c, t)), cols, |x|);
      ScaleMatrix(s, RotateColumns(k, m, c, x, cols));
    }
  }

  /** The converter's rotation of a weight of `m` by `n` blocks: axis 0, then axis 1. */
  function Rotate(k: nat, m: nat, n: nat, c: real, x: Matrix): (y: Matrix)
    requires |x| == m * Pow2(k) && forall i :: 0 <= i < |x| ==> |x[i]| == n * Pow2(k)
    ensures |y| == m * Pow2(k) && forall i :: 0 <= i < |y| ==> |y[i]| == n * Pow2(k)
  {
    RotateRows(k, n, c, RotateColumns(k, m, c, x, n * Pow2(k)))
  }

  /** Axis 1, then axis 0. */
  function Restore(k: nat, m: nat, n: nat, c: real, y: Matrix): Matrix
    requires |y| == m * Pow2(k) && forall i :: 0 <= i < |y| ==> |y[i]| == n * Pow2(k)
  {
    RotateColumns(k, m, c, RotateRows(k, n, c, y), n * Pow2(k))
  }

  /**
   Restoring a rotated weight gives it back multiplied by the square of `s`, the factor squared times
   the block length: unchanged, when c is the 1 / sqrt(2^k) of the code.
   */
  lemma RotationUndone(k: nat, m: nat, n: nat, c: real, s: real, x: Matrix)
    requires |x| == m * Pow2(k) && forall i :: 0 <= i < |x| ==> |x[i]| == n * Pow2(k)
    requires s == c * c * Pow2(k) as real
    ensures Restore(k, m, n, c, Rotate(k, m, n, c, x)) == ScaleMatrix(s * s, x)
    ensures s == 1.0 ==> Restore(k, m, n, c, Rotate(k, m, n, c, x)) == x
  {
    hide ScaleMatrix, Restore, Rotate;
    RestoreRotate(k, m, n, c, s, s * s, x);
    if s == 1.0 {
      ScaleMatrixOne(s * s, x);
    }
  }

  lemma RestoreRotate(k: nat, m: nat, n: nat, c: real, s: real, ss: real, x: Matrix)
    requires |x| == m * Pow2(k) && forall i :: 0 <= i < |x| ==> |x[i]| == n * Pow2(k)
    requires s == c * c * Pow2(k) as real && ss == s * s
    ensures Restore(k, m, n, c, Rotate(k, m, n, c, x)) == ScaleMatrix(ss, x)
  {
    hide RotateRows, RotateColumns, ScaleMatrix;
    var cols := n * Pow2(k);
    var y := RotateColumns(k, m, c, x, cols);
    RotateRowsTwice(k, n, c, s, y);
    RotateColumnsScale(k, m, c, s, y, cols);
    RotateColumnsTwice(k, m, c, s, x, cols);
    ScaleMatrixTwice(s, ss, x);
  }

  lemma ScaleMatrixTwice(s: real, ss: real, x: Matrix)
    requires ss == s * s
    ensures ScaleMatrix(s, ScaleMatrix(s, x)) == ScaleMatrix(ss, x)
  {
    hide Scale;
    forall i | 0 <= i < |x|
      ensures Scale(s, Scale(s, x[i])) == Scale(ss, x[i])
    {
      ScaleScale(s, s, ss, x[i]);
    }
  }

  lemma ScaleMatrixOne(one: real, x: Matrix)
    requires one == 1.0
    ensures ScaleMatrix(one, x) == x
  {
    forall i | 0 <= i < |x|
      ensures Scale(one, x[i]) == x[i]
    {
      assert forall j :: 0 <= j < |x[i]| ==> Scale(one, x[i])[j] == one * x[i][j] == x[i][j];
    }
  }

  /** Rotating a row multiplies its energy by the same number: it is kept when c is 1 / sqrt(2^k). */
  lemma {:induction false} RotateRowEnergy(k: nat, m: nat, c: real, row: seq<real>)
    requires |row| == m * Pow2(k)
    ensures Energy(RotateRow(k, m, c, row)) == c * c * Pow2(k) as real * Energy(row)
  {
    hide Blocks, Scale, Energy;
    BlocksEnergy(k, m, row);
    EnergyScale(c, c * c, Blocks(k, m, row));
    Product3(c * c, Pow2(k) as real, Energy(row));
  }

  lemma Product3(x: real, y: real, z: real)
    ensures x * (y * z) == x * y * z
  {
  }

  lemma {:induction false} BlocksEnergy(k: nat, m: nat, v: seq<real>)
    requires |v| == m * Pow2(k)
    ensures Energy(Blocks(k, m, v)) == Pow2(k) as real * Energy(v)
  {
    hide *;
    if m > 0 {
      var h := Pow2(k);
      OneBlockLess(m, h);
      var u, w := v[..|v| - h], v[|v| - h..];
      JoinHalves(v, |v| - h);
      BlocksEnergy(k, m - 1, u);
      TransformEnergy(k, w);
      EnergyConcat(u, w);
      BlocksSnoc(k, m - 1, u, w);
      EnergyConcat(Blocks(k, m - 1, u), Transform(k, w));
      ProductSum(h as real, Energy(u), Energy(w));
    } else {
      NoBlocks(k, 0, v);
      EnergyOfNothing();
    }
  }

  lemma ProductSum(h: real, x: real, y: real)
    ensures h * x + h * y == h * (x + y)
  {
  }

  lemma EnergyOfNothing()
    ensures Energy([]) == 0.0
  {
  }

  lemma {:induction false} EnergyScale(c: real, cc: real, x: seq<real>)
    requires cc == c * c
    ensures Energy(Scale(c, x)) == cc * Energy(x)
  {
    if x != [] {
      var n := |x| - 1;
      EnergyScale(c, cc, x[..n]);
      ScaleHalves(c, x, n);
      ScaledSquare(c, cc, x[n]);
      assert cc * (Energy(x[..n]) + x[n] * x[n]) == cc * Energy(x[..n]) + cc * (x[n] * x[n]);
    }
  }

  lemma ScaledSquare(c: real, cc: real, l: real)
    requires cc == c * c
    ensures (c * l) * (c * l) == cc * (l * l)
  {
    assert (c * l) * (c * l) == (c * c) * (l * l);
  }
}
