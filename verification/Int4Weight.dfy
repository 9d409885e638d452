/** Whole weights: `pack_int4_weight` and `unpack_int4_weight` of python/llmopt_backend/quantization.py. */
module Int4Weight {
  import opened Results
  import opened Int4Pack

  datatype PackError = NotPositive | NotMultiple | BadScaleShape

  datatype Packed = Packed(bytes: seq<seq<nat>>, scales: seq<seq<real>>)

  /** A two-dimensional tensor with `columns` columns. */
  predicate IsMatrix<T>(rows: seq<seq<T>>, columns: nat) {
    forall n :: 0 <= n < |rows| ==> |rows[n]| == columns
  }

  function GroupOf(row: seq<real>, g: nat): (group: seq<real>)
    requires |row| % GROUP == 0 && g < |row| / GROUP
    ensures |group| == GROUP
  {
    row[GROUP * g..GROUP * g + GROUP]
  }

  function RowScale(row: seq<real>, eps: real, k: nat): (s: real)
    requires eps > 0.0 && |row| % GROUP == 0 && k < |row|
    ensures s > 0.0
  {
    Scale(GroupOf(row, k / GROUP), eps)
  }

  function RowNibbles(row: seq<real>, eps: real): (q: seq<int>)
    requires eps > 0.0 && |row| % GROUP == 0
    ensures |q| == |row|
  {
    seq(|row|, k requires 0 <= k < |row| => Quantize(row[k], RowScale(row, eps, k)))
  }

  function RowScales(row: seq<real>, eps: real, r: real -> real): (s: seq<real>)
    requires eps > 0.0 && |row| % GROUP == 0
    ensures |s| == |row| / GROUP
  {
    seq(|row| / GROUP, g requires 0 <= g < |row| / GROUP => r(Scale(GroupOf(row, g), eps)))
  }

  /** `pack_int4_weight` of a tensor with `columns` columns. */
  function Pack(rows: seq<seq<real>>, columns: nat, eps: real, r: real -> real): Result<Packed, PackError>
    requires eps > 0.0 && IsMatrix(rows, columns)
  {
    if rows == [] || columns == 0 then Err(NotPositive)
    else if columns % GROUP != 0 then Err(NotMultiple)
    else Ok(Packed(seq(|rows|, n requires 0 <= n < |rows| => PackRow(RowNibbles(rows[n], eps))),
                   seq(|rows|, n requires 0 <= n < |rows| => RowScales(rows[n], eps, r))))
  }

  function UnpackedRow(bytes: seq<nat>, scales: seq<real>): (row: seq<real>)
    requires 2 * |bytes| % GROUP == 0 && |scales| == 2 * |bytes| / GROUP
    ensures |row| == 2 * |bytes|
  {
    seq(2 * |bytes|, k requires 0 <= k < 2 * |bytes| => Mul(UnpackRow(bytes)[k] as real, scales[k / GROUP]))
  }

  /** `unpack_int4_weight` of a tensor with `columns` byte columns. */
  function Unpack(p: Packed, columns: nat): Result<seq<seq<real>>, PackError>
    requires IsMatrix(p.bytes, columns)
  {
    if p.bytes == [] || columns == 0 then Err(NotPositive)
    else if 2 * columns % GROUP != 0 then Err(NotMultiple)
    else if |p.scales| != |p.bytes| || !IsMatrix(p.scales, 2 * columns / GROUP) then Err(BadScaleShape)
    else Ok(seq(|p.bytes|, n requires 0 <= n < |p.bytes| => UnpackedRow(p.bytes[n], p.scales[n])))
  }

  // ---------------------------------------------------------------------------------------
  // Rows
  // ---------------------------------------------------------------------------------------

  lemma InGroup(row: seq<real>, k: nat)
    requires |row| % GROUP == 0 && k < |row|
    ensures k / GROUP < |row| / GROUP && row[k] == GroupOf(row, k / GROUP)[k % GROUP]
  {
    assert k == GROUP * (k / GROUP) + k % GROUP;
  }

  lemma RowNibbleOf(row: seq<real>, eps: real, k: nat)
    requires eps > 0.0 && |row| % GROUP == 0 && k < |row|
    ensures k / GROUP < |row| / GROUP
    ensures RowNibbles(row, eps)[k] == QuantizeGroup(GroupOf(row, k / GROUP), eps)[k % GROUP]
    ensures -7 <= RowNibbles(row, eps)[k] <= 7
    ensures 2.0 * Abs(row[k] - Mul(RowNibbles(row, eps)[k] as real, RowScale(row, eps, k))) <= RowScale(row, eps, k)
  {
    InGroup(row, k);
    hide Quantize, Scale, Mul, RoundEven, Abs;
    QuantizedIsNear(GroupOf(row, k / GROUP), eps, k % GROUP);
  }

  /** The bytes of a packed row unpack to its nibbles. */
  lemma RowRoundTrip(row: seq<real>, eps: real)
    requires eps > 0.0 && |row| % GROUP == 0
    ensures UnpackRow(PackRow(RowNibbles(row, eps))) == RowNibbles(row, eps)
  {
    EvenGroups(|row|);
    hide *;
    var q := RowNibbles(row, eps);
    forall k | 0 <= k < |q|
      ensures IsInt4(q[k])
    {
      RowNibbleOf(row, eps, k);
      SmallIsInt4(q[k]);
    }
    UnpackOfPack(q);
  }

  lemma SmallIsInt4(q: int)
    requires -7 <= q <= 7
    ensures IsInt4(q)
  {
  }

  /** Whole groups have an even length. */
  lemma EvenGroups(length: nat)
    requires length % GROUP == 0
    ensures length % 2 == 0 && 2 * (length / 2) == length
  {
    SixtyFours(length);
  }

  lemma SixtyFours(length: nat)
    requires length % 64 == 0
    ensures length % 2 == 0 && 2 * (length / 2) == length
  {
    hide *;
    assert length == 2 * (32 * (length / 64));
  }

  /** Weights are packed exactly when they are not empty and their columns come in whole groups of 64. */
  lemma PackAccepts(rows: seq<seq<real>>, columns: nat, eps: real, r: real -> real)
    requires eps > 0.0 && IsMatrix(rows, columns)
    ensures Pack(rows, columns, eps, r).Ok? <==> rows != [] && columns > 0 && columns % 64 == 0
    ensures Pack(rows, columns, eps, r).Err? ==>
              Pack(rows, columns, eps, r).error == if rows == [] || columns == 0 then NotPositive else NotMultiple
  {
  }

  /** Packed weights are unpacked exactly when they have such columns and one scale for each group. */
  lemma UnpackAccepts(p: Packed, columns: nat)
    requires IsMatrix(p.bytes, columns)
    ensures Unpack(p, columns).Ok?
       <==> && p.bytes != [] && columns > 0 && columns % 32 == 0 && |p.scales| == |p.bytes|
            && forall n :: 0 <= n < |p.scales| ==> |p.scales[n]| == columns / 32
  {
    assert 2 * columns % 64 == 2 * (columns % 32) && 2 * columns / 64 == columns / 32;
    hide UnpackedRow;
  }

  /** The step of column `k`: a seventh of the largest magnitude in its 64 columns, or of `eps`. */
  function Step(row: seq<real>, eps: real, k: nat): (s: real)
    requires eps > 0.0 && |row| % 64 == 0 && k < |row|
    ensures s > 0.0
  {
    var start := k / 64 * 64;
    assert start + 64 <= |row|;
    Max(Amax(row[start..start + 64]), eps) / 7.0
  }

  lemma StepIs(row: seq<real>, eps: real, k: nat)
    requires eps > 0.0 && |row| % 64 == 0 && k < |row|
    ensures RowScale(row, eps, k) == Step(row, eps, k)
    ensures RowNibbles(row, eps)[k] == RoundEven(Ratio(row[k], Step(row, eps, k)))
  {
    hide Amax, Max, Ratio, RoundEven;
    assert 64 * (k / 64) == k / 64 * 64;
    InGroup(row, k);
    QuantizedIsNear(GroupOf(row, k / 64), eps, k % 64);
    RowNibbleOf(row, eps, k);
  }

  /**
   Byte `j` of a packed row has the rounded quotient of column `2 * j` in its low half and that of the
   next column in its high half, both in two's complement; its group's step is stored rounded.
   */
  lemma PackedByte(rows: seq<seq<real>>, columns: nat, eps: real, r: real -> real, n: nat, j: nat)
    requires eps > 0.0 && IsMatrix(rows, columns) && Pack(rows, columns, eps, r).Ok? && n < |rows| && 2 * j < columns
    ensures var p, row := Pack(rows, columns, eps, r).value, rows[n];
            && |p.bytes| == |p.scales| == |rows| && |p.bytes[n]| == columns / 2 && |p.scales[n]| == columns / 64
            && 2 * j + 1 < columns == |row|
            && p.bytes[n][j] == RoundEven(Ratio(row[2 * j], Step(row, eps, 2 * j))) % 16
                                + 16 * (RoundEven(Ratio(row[2 * j + 1], Step(row, eps, 2 * j + 1))) % 16)
            && p.scales[n][j / 32] == r(Step(row, eps, 2 * j)) == r(Step(row, eps, 2 * j + 1))
  {
    EvenGroups(columns);
    var row := rows[n];
    PackedParts(rows, columns, eps, r, n);
    InGroup(row, 2 * j);
    hide *;
    StepIs(row, eps, 2 * j);
    StepIs(row, eps, 2 * j + 1);
    PackedPair(RowNibbles(row, eps), j);
    ScaleAt(row, eps, r, j);
  }

  lemma PackedParts(rows: seq<seq<real>>, columns: nat, eps: real, r: real -> real, n: nat)
    requires eps > 0.0 && IsMatrix(rows, columns) && Pack(rows, columns, eps, r).Ok? && n < |rows|
    ensures |rows[n]| == columns && columns % 64 == 0
    ensures var p := Pack(rows, columns, eps, r).value;
            && |p.bytes| == |p.scales| == |rows|
            && p.bytes[n] == PackRow(RowNibbles(rows[n], eps)) && p.scales[n] == RowScales(rows[n], eps, r)
  {
    hide PackRow, RowNibbles, RowScales;
  }

  lemma PackedPair(q: seq<int>, j: nat)
    requires 2 * j + 1 < |q|
    ensures |PackRow(q)| == |q| / 2 && PackRow(q)[j] == q[2 * j] % 16 + 16 * (q[2 * j + 1] % 16)
  {
  }

  lemma ScaleAt(row: seq<real>, eps: real, r: real -> real, j: nat)
    requires eps > 0.0 && |row| % 64 == 0 && 2 * j + 1 < |row|
    ensures |RowScales(row, eps, r)| == |row| / 64 && j / 32 < |row| / 64
    ensures RowScales(row, eps, r)[j / 32] == r(RowScale(row, eps, 2 * j)) == r(RowScale(row, eps, 2 * j + 1))
  {
    hide Scale, GroupOf;
    SameGroup(j);
    assert j / 32 < |row| / 64;
  }

  lemma SameGroup(j: nat)
    ensures 2 * j / 64 == j / 32 && (2 * j + 1) / 64 == j / 32
  {
  }

  /** What a packed weight unpacks to: every entry is its nibble times its group's stored scale. */
  lemma EntryOfUnpacked(rows: seq<seq<real>>, columns: nat, eps: real, r: real -> real, n: nat, k: nat)
    requires eps > 0.0 && IsMatrix(rows, columns) && Pack(rows, columns, eps, r).Ok? && n < |rows| && k < columns
    ensures var p := Pack(rows, columns, eps, r).value;
            && IsMatrix(p.bytes, columns / 2) && Unpack(p, columns / 2).Ok?
            && |Unpack(p, columns / 2).value| == |rows| && |Unpack(p, columns / 2).value[n]| == columns
            && Unpack(p, columns / 2).value[n][k]
               == Mul(RowNibbles(rows[n], eps)[k] as real, r(RowScale(rows[n], eps, k)))
  {
    RowUnpacked(rows, columns, eps, r, n);
    hide Pack, Unpack, Quantize, Scale, Mul, PackRow, UnpackRow, RowNibbles;
    RowRoundTrip(rows[n], eps);
    InGroup(rows[n], k);
  }

  /** A row of a packed weight, unpacked. */
  lemma RowUnpacked(rows: seq<seq<real>>, columns: nat, eps: real, r: real -> real, n: nat)
    requires eps > 0.0 && IsMatrix(rows, columns) && Pack(rows, columns, eps, r).Ok? && n < |rows|
    ensures |rows[n]| == columns && columns % GROUP == 0 && 2 * (columns / 2) == columns
    ensures var p := Pack(rows, columns, eps, r).value;
            && IsMatrix(p.bytes, columns / 2) && Unpack(p, columns / 2).Ok?
            && |Unpack(p, columns / 2).value| == |rows|
            && Unpack(p, columns / 2).value[n] == UnpackedRow(PackRow(RowNibbles(rows[n], eps)), RowScales(rows[n], eps, r))
  {
    hide Quantize, Scale, Mul, PackRow, UnpackRow, RowNibbles, RowScales, UnpackedRow;
    EvenGroups(columns);
  }

  /**
   Packing keeps every weight within half a step of its group's scale, up to what rounding that scale
   adds; nothing else is lost.
   */
  lemma UnpackedIsNear(rows: seq<seq<real>>, columns: nat, eps: real, r: real -> real, n: nat, k: nat)
    requires eps > 0.0 && IsMatrix(rows, columns) && Pack(rows, columns, eps, r).Ok? && n < |rows| && k < columns
    ensures var p, s := Pack(rows, columns, eps, r).value, RowScale(rows[n], eps, k);
            && IsMatrix(p.bytes, columns / 2) && Unpack(p, columns / 2).Ok?
            && |Unpack(p, columns / 2).value| == |rows| && |Unpack(p, columns / 2).value[n]| == columns
            && 2.0 * Abs(rows[n][k] - Unpack(p, columns / 2).value[n][k]) <= s + 14.0 * Abs(r(s) - s)
  {
    EntryOfUnpacked(rows, columns, eps, r, n, k);
    assert |rows[n]| == columns;
    RowNibbleOf(rows[n], eps, k);
    var q, s := RowNibbles(rows[n], eps)[k], RowScale(rows[n], eps, k);
    hide Mul, Pack, Unpack, RowNibbles, RowScale;
    StoredScale(q, r(s), s);
  }

  lemma StoredScale(q: int, stored: real, s: real)
    requires -7 <= q <= 7
    ensures Abs(Mul(q as real, stored) - Mul(q as real, s)) <= 7.0 * Abs(stored - s)
  {
    hide Mul;
    DistributeLeft(q as real, stored, s);
    ProductMagnitude(q as real, stored - s);
    MulLessEq(Abs(q as real), 7.0, Abs(stored - s));
    ByConstant(Abs(stored - s));
  }

  // ---------------------------------------------------------------------------------------
  // Packing again
  // ---------------------------------------------------------------------------------------

  lemma GroupOfUnpacked(row: seq<real>, eps: real, r: real -> real, w: seq<real>, g: nat)
    requires eps > 0.0 && |row| % GROUP == 0 && |w| == |row| && g < |row| / GROUP
    requires forall k :: 0 <= k < |row| ==> w[k] == Mul(RowNibbles(row, eps)[k] as real, r(RowScale(row, eps, k)))
    ensures GroupOf(w, g) == Dequantize(QuantizeGroup(GroupOf(row, g), eps), r(Scale(GroupOf(row, g), eps)))
  {
    hide Mul, Quantize, Scale, RowNibbles;
    var group := GroupOf(row, g);
    forall i | 0 <= i < GROUP
      ensures GroupOf(w, g)[i] == Mul(QuantizeGroup(group, eps)[i] as real, r(Scale(group, eps)))
    {
      var k := GROUP * g + i;
      assert k / GROUP == g && k % GROUP == i;
      RowNibbleOf(row, eps, k);
      assert GroupOf(w, g)[i] == w[k];
    }
  }

  /** A row all of whose groups are stable packs to the same nibbles and scales again. */
  lemma RowAgain(row: seq<real>, eps: real, r: real -> real, w: seq<real>)
    requires eps > 0.0 && |row| % GROUP == 0 && |w| == |row|
    requires forall k :: 0 <= k < |row| ==> w[k] == Mul(RowNibbles(row, eps)[k] as real, r(RowScale(row, eps, k)))
    requires forall g :: 0 <= g < |row| / GROUP ==> Stable(GroupOf(row, g), eps, r)
    ensures RowNibbles(w, eps) == RowNibbles(row, eps) && RowScales(w, eps, r) == RowScales(row, eps, r)
  {
    forall g | 0 <= g < |row| / GROUP
      ensures QuantizeGroup(GroupOf(w, g), eps) == QuantizeGroup(GroupOf(row, g), eps)
      ensures r(Scale(GroupOf(w, g), eps)) == r(Scale(GroupOf(row, g), eps))
    {
      GroupOfUnpacked(row, eps, r, w, g);
      assert Stable(GroupOf(row, g), eps, r);
    }
    hide Mul, Quantize, Scale, RowNibbles, Stable, QuantizeGroup;
    forall k | 0 <= k < |row|
      ensures RowNibbles(w, eps)[k] == RowNibbles(row, eps)[k]
    {
      RowNibbleOf(row, eps, k);
      RowNibbleOf(w, eps, k);
    }
    assert RowNibbles(w, eps) == RowNibbles(row, eps);
  }

  /** Packing an unpacked weight gives the packed weight back when every group is stable. */
  lemma PackOfUnpacked(rows: seq<seq<real>>, columns: nat, eps: real, r: real -> real)
    requires eps > 0.0 && IsMatrix(rows, columns) && Pack(rows, columns, eps, r).Ok?
    requires forall n, g :: 0 <= n < |rows| && 0 <= g < columns / GROUP ==>
               |rows[n]| == columns && Stable(GroupOf(rows[n], g), eps, r)
    ensures var p := Pack(rows, columns, eps, r).value;
            && IsMatrix(p.bytes, columns / 2) && Unpack(p, columns / 2).Ok?
            && IsMatrix(Unpack(p, columns / 2).value, columns)
            && Pack(Unpack(p, columns / 2).value, columns, eps, r) == Ok(p)
  {
    var p := Pack(rows, columns, eps, r).value;
    EntryOfUnpacked(rows, columns, eps, r, 0, 0);
    hide Unpack, Stable;
    var again := Unpack(p, columns / 2).value;
    forall n | 0 <= n < |rows|
      ensures |again[n]| == columns
      ensures RowNibbles(again[n], eps) == RowNibbles(rows[n], eps)
      ensures RowScales(again[n], eps, r) == RowScales(rows[n], eps, r)
    {
      RowOfMatrix(rows, columns, eps, r, n);
    }
    SamePack(rows, again, columns, eps, r);
  }

  lemma SamePack(a: seq<seq<real>>, b: seq<seq<real>>, columns: nat, eps: real, r: real -> real)
    requires eps > 0.0 && |a| == |b| && IsMatrix(a, columns) && IsMatrix(b, columns) && columns % GROUP == 0
    requires forall n :: 0 <= n < |a| ==>
               RowNibbles(a[n], eps) == RowNibbles(b[n], eps) && RowScales(a[n], eps, r) == RowScales(b[n], eps, r)
    ensures Pack(a, columns, eps, r) == Pack(b, columns, eps, r)
  {
    hide RowNibbles, RowScales, PackRow;
    if a != [] && columns > 0 {
      var p, q := Pack(a, columns, eps, r).value, Pack(b, columns, eps, r).value;
      assert forall n :: 0 <= n < |a| ==> p.bytes[n] == q.bytes[n] && p.scales[n] == q.scales[n];
      assert p.bytes == q.bytes && p.scales == q.scales;
    }
  }

  lemma RowOfMatrix(rows: seq<seq<real>>, columns: nat, eps: real, r: real -> real, n: nat)
    requires eps > 0.0 && IsMatrix(rows, columns) && Pack(rows, columns, eps, r).Ok? && n < |rows|
    requires forall g :: 0 <= g < columns / GROUP ==> |rows[n]| == columns && Stable(GroupOf(rows[n], g), eps, r)
    ensures var p := Pack(rows, columns, eps, r).value;
            && IsMatrix(p.bytes, columns / 2) && Unpack(p, columns / 2).Ok? && |Unpack(p, columns / 2).value| == |rows|
            && var again := Unpack(p, columns / 2).value;
               && |again[n]| == columns
               && RowNibbles(again[n], eps) == RowNibbles(rows[n], eps)
               && RowScales(again[n], eps, r) == RowScales(rows[n], eps, r)
  {
    var p := Pack(rows, columns, eps, r).value;
    EntryOfUnpacked(rows, columns, eps, r, n, 0);
    var again := Unpack(p, columns / 2).value;
    forall k | 0 <= k < columns
      ensures again[n][k] == Mul(RowNibbles(rows[n], eps)[k] as real, r(RowScale(rows[n], eps, k)))
    {
      EntryOfUnpacked(rows, columns, eps, r, n, k);
    }
    hide Mul, RowNibbles, RowScales, Stable, Unpack, Pack;
    RowAgain(rows[n], eps, r, again[n]);
  }
}
