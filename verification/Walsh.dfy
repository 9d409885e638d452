/**
 The Walsh-Hadamard rotation that bench/convert_gguf_exl3.py applies to blocks of 128 weights,
 for blocks of any power-of-two length, over exact reals. The factor 1 / sqrt(128) is a parameter.
 */
module Walsh {
  import opened Sums

  function Pow2(k: nat): (n: nat)
    ensures n > 0
  {
    if k == 0 then 1 else 2 * Pow2(k - 1)
  }

  function Plus(a: seq<real>, b: seq<real>): (r: seq<real>)
    requires |a| == |b|
    ensures |r| == |a| && forall i :: 0 <= i < |a| ==> r[i] == a[i] + b[i]
  {
    seq(|a|, i requires 0 <= i < |a| => a[i] + b[i])
  }

  function Minus(a: seq<real>, b: seq<real>): (r: seq<real>)
    requires |a| == |b|
    ensures |r| == |a| && forall i :: 0 <= i < |a| ==> r[i] == a[i] - b[i]
  {
    seq(|a|, i requires 0 <= i < |a| => a[i] - b[i])
  }

  function Scale(c: real, a: seq<real>): (r: seq<real>)
    ensures |r| == |a| && forall i :: 0 <= i < |a| ==> r[i] == c * a[i]
  {
    seq(|a|, i requires 0 <= i < |a| => c * a[i])
  }

  /** The transform of one block, halves first: what the butterfly passes build up bottom-up. */
  function Transform(k: nat, x: seq<real>): (r: seq<real>)
    requires |x| == Pow2(k)
    ensures |r| == |x|
  {
    if k == 0 then x
    else
      var h := Pow2(k - 1);
      var a, b := Transform(k - 1, x[..h]), Transform(k - 1, x[h..]);
      Butterfly(a, b)
  }

  function Butterfly(a: seq<real>, b: seq<real>): (r: seq<real>)
    requires |a| == |b|
    ensures |r| == 2 * |a|
  {
    Plus(a, b) + Minus(a, b)
  }

  lemma ButterflyHalves(a: seq<real>, b: seq<real>)
    requires |a| == |b|
    ensures Butterfly(a, b)[..|a|] == Plus(a, b) && Butterfly(a, b)[|a|..] == Minus(a, b)
  {
  }

  lemma Halves(x: seq<real>, y: seq<real>, h: nat)
    requires |x| == |y| && h <= |x|
    ensures Plus(x, y)[..h] == Plus(x[..h], y[..h]) && Plus(x, y)[h..] == Plus(x[h..], y[h..])
    ensures Minus(x, y)[..h] == Minus(x[..h], y[..h]) && Minus(x, y)[h..] == Minus(x[h..], y[h..])
  {
  }

  lemma ScaleHalves(c: real, x: seq<real>, h: nat)
    requires h <= |x|
    ensures Scale(c, x)[..h] == Scale(c, x[..h]) && Scale(c, x)[h..] == Scale(c, x[h..])
  {
    forall i | 0 <= i < h
      ensures Scale(c, x)[..h][i] == Scale(c, x[..h])[i]
    {
      assert x[..h][i] == x[i];
    }
    forall i | 0 <= i < |x| - h
      ensures Scale(c, x)[h..][i] == Scale(c, x[h..])[i]
    {
      assert x[h..][i] == x[h + i];
    }
  }

  /** Entry (i, j) of the Sylvester-Hadamard matrix of order 2^k. */
  function Sylvester(k: nat, i: int, j: int): real {
    if k == 0 then 1.0
    else
      var h := Pow2(k - 1);
      var s := Sylvester(k - 1, i % h, j % h);
      if i >= h && j >= h then -s else s
  }

  function At(x: seq<real>, i: int): real {
    if 0 <= i < |x| then x[i] else 0.0
  }

  /** Row `i` of the matrix times the block. */
  function RowProduct(k: nat, i: int, x: seq<real>): real {
    Sum(Pow2(k), j => Sylvester(k, i, j) * At(x, j))
  }

  /** The transform is multiplication by the Sylvester matrix. */
  lemma {:induction false} TransformIsSylvester(k: nat, x: seq<real>, i: nat)
    requires |x| == Pow2(k) && i < |x|
    ensures Transform(k, x)[i] == RowProduct(k, i, x)
  {
    hide *;
    if k == 0 {
      SylvesterOfOne(x);
    } else {
      HalfTransform(k, x, i);
      var h := Pow2(k - 1);
      TransformIsSylvester(k - 1, x[..h], i % h);
      TransformIsSylvester(k - 1, x[h..], i % h);
      RowProductHalves(k, x, i);
    }
  }

  lemma SylvesterOfOne(x: seq<real>)
    requires |x| == Pow2(0)
    ensures |x| == 1 && Transform(0, x)[0] == RowProduct(0, 0, x)
  {
    var f := j => Sylvester(0, 0, j) * At(x, j);
    assert Sum(1, f) == 0.0 + f(0);
  }

  lemma HalfTransform(k: nat, x: seq<real>, i: nat)
    requires k > 0 && |x| == Pow2(k) && i < |x|
    ensures |x| == 2 * Pow2(k - 1)
    ensures var h := Pow2(k - 1);
            i % h == (if i < h then i else i - h)
            && var a, b := Transform(k - 1, x[..h])[i % h], Transform(k - 1, x[h..])[i % h];
               Transform(k, x)[i] == if i < h then a + b else a - b
  {
    var h := Pow2(k - 1);
    Remainder(i, h);
    ButterflyHalves(Transform(k - 1, x[..h]), Transform(k - 1, x[h..]));
  }

  lemma Remainder(i: nat, h: nat)
    requires h > 0 && i < 2 * h
    ensures i % h == if i < h then i else i - h
  {
    if i >= h {
      assert i == h + (i - h);
      assert i / h == 1;
    }
  }

  lemma SylvesterQuarters(k: nat, i: nat, j: nat)
    requires k > 0 && i < Pow2(k) && j < Pow2(k - 1)
    ensures var h := Pow2(k - 1);
            var s := Sylvester(k - 1, i % h, j);
            Sylvester(k, i, j) == s && Sylvester(k, i, h + j) == if i < h then s else -s
  {
    var h := Pow2(k - 1);
    Remainder(j, h);
    Remainder(h + j, h);
  }

  lemma RowProductHalves(k: nat, x: seq<real>, i: nat)
    requires k > 0 && |x| == Pow2(k) && i < |x|
    ensures var h := Pow2(k - 1);
            var a, b := RowProduct(k - 1, i % h, x[..h]), RowProduct(k - 1, i % h, x[h..]);
            RowProduct(k, i, x) == if i < h then a + b else a - b
  {
    hide Sum, Sylvester;
    var h := Pow2(k - 1);
    var f := j => Sylvester(k, i, j) * At(x, j);
    var g := j => f(h + j);
    SumConcat(h, h, f);
    var low := j => Sylvester(k - 1, i % h, j) * At(x[..h], j);
    var high := j => Sylvester(k - 1, i % h, j) * At(x[h..], j);
    forall j | 0 <= j < h
      ensures f(j) == low(j)
      ensures g(j) == if i < h then high(j) else -1.0 * high(j)
    {
      SylvesterQuarters(k, i, j);
    }
    SumEqual(h, f, low);
    if i < h {
      SumEqual(h, g, high);
    } else {
      SumEqual(h, g, j => -1.0 * high(j));
      SumScaled(h, -1.0, high);
    }
  }

  // ---------------------------------------------------------------------------------------
  // Linearity, inverse, energy
  // ---------------------------------------------------------------------------------------

  lemma ButterflyPlus(a: seq<real>, b: seq<real>, c: seq<real>, d: seq<real>)
    requires |a| == |b| == |c| == |d|
    ensures Butterfly(Plus(a, c), Plus(b, d)) == Plus(Butterfly(a, b), Butterfly(c, d))
    ensures Butterfly(Minus(a, c), Minus(b, d)) == Minus(Butterfly(a, b), Butterfly(c, d))
  {
  }

  lemma ButterflyScale(c: real, a: seq<real>, b: seq<real>)
    requires |a| == |b|
    ensures Butterfly(Scale(c, a), Scale(c, b)) == Scale(c, Butterfly(a, b))
  {
    var l, r := Butterfly(Scale(c, a), Scale(c, b)), Scale(c, Butterfly(a, b));
    forall i | 0 <= i < 2 * |a|
      ensures l[i] == r[i]
    {
      var m := if i < |a| then i else i - |a|;
      assert c * (a[m] + b[m]) == c * a[m] + c * b[m];
      assert c * (a[m] - b[m]) == c * a[m] - c * b[m];
    }
  }

  /** The transform of a block from the transforms of its halves. */
  lemma TransformHalves(k: nat, x: seq<real>, h: nat)
    requires k > 0 && |x| == Pow2(k) && h == Pow2(k - 1)
    ensures |x| == 2 * h
    ensures Transform(k, x) == Butterfly(Transform(k - 1, x[..h]), Transform(k - 1, x[h..]))
  {
  }

  lemma TransformOfOne(x: seq<real>)
    requires |x| == Pow2(0)
    ensures Transform(0, x) == x
  {
  }

  lemma {:induction false} TransformPlus(k: nat, x: seq<real>, y: seq<real>)
    requires |x| == |y| == Pow2(k)
    ensures Transform(k, Plus(x, y)) == Plus(Transform(k, x), Transform(k, y))
    ensures Transform(k, Minus(x, y)) == Minus(Transform(k, x), Transform(k, y))
  {
    hide *;
    if k > 0 {
      var h := Pow2(k - 1);
      TransformHalves(k, x, h);
      TransformHalves(k, y, h);
      TransformHalves(k, Plus(x, y), h);
      TransformHalves(k, Minus(x, y), h);
      Halves(x, y, h);
      TransformPlus(k - 1, x[..h], y[..h]);
      TransformPlus(k - 1, x[h..], y[h..]);
      ButterflyPlus(Transform(k - 1, x[..h]), Transform(k - 1, x[h..]),
                    Transform(k - 1, y[..h]), Transform(k - 1, y[h..]));
    } else {
      TransformOfOne(x);
      TransformOfOne(y);
      TransformOfOne(Plus(x, y));
      TransformOfOne(Minus(x, y));
    }
  }

  lemma {:induction false} TransformScale(k: nat, c: real, x: seq<real>)
    requires |x| == Pow2(k)
    ensures Transform(k, Scale(c, x)) == Scale(c, Transform(k, x))
  {
    hide *;
    if k > 0 {
      var h := Pow2(k - 1);
      TransformHalves(k, x, h);
      TransformHalves(k, Scale(c, x), h);
      ScaleHalves(c, x, h);
      TransformScale(k - 1, c, x[..h]);
      TransformScale(k - 1, c, x[h..]);
      ButterflyScale(c, Transform(k - 1, x[..h]), Transform(k - 1, x[h..]));
    } else {
      TransformOfOne(x);
      TransformOfOne(Scale(c, x));
    }
  }

  /** Applied twice, the transform multiplies by the block length. */
  lemma {:induction false} TransformTwice(k: nat, x: seq<real>)
    requires |x| == Pow2(k)
    ensures Transform(k, Transform(k, x)) == Scale(Pow2(k) as real, x)
  {
    hide *;
    if k > 0 {
      var h := Pow2(k - 1);
      TransformHalves(k, x, h);
      var a, b := Transform(k - 1, x[..h]), Transform(k - 1, x[h..]);
      TransformHalves(k, Butterfly(a, b), h);
      ButterflyHalves(a, b);
      TransformPlus(k - 1, a, b);
      TransformTwice(k - 1, x[..h]);
      TransformTwice(k - 1, x[h..]);
      ButterflyTwice(h as real, x[..h], x[h..]);
      JoinHalves(x, h);
      Doubled(k, h);
    } else {
      TransformOfOne(x);
      ScaleOne(Pow2(0) as real, x);
    }
  }

  lemma JoinHalves(x: seq<real>, h: nat)
    requires h <= |x|
    ensures x[..h] + x[h..] == x
  {
  }

  lemma Doubled(k: nat, h: nat)
    requires k > 0 && h == Pow2(k - 1)
    ensures Pow2(k) as real == 2.0 * h as real
  {
  }

  lemma ScaleOne(one: real, x: seq<real>)
    requires |x| == Pow2(0)
    ensures one == Pow2(0) as real ==> Scale(one, x) == x
  {
    assert one == 1.0 ==> forall i :: 0 <= i < 1 ==> Scale(one, x)[i] == one * x[i] == x[i];
  }

  lemma ButterflyTwice(c: real, x: seq<real>, y: seq<real>)
    requires |x| == |y|
    ensures var p, q := Scale(c, x), Scale(c, y);
            Butterfly(Plus(p, q), Minus(p, q)) == Scale(2.0 * c, x + y)
  {
    var p, q := Scale(c, x), Scale(c, y);
    var l, r := Butterfly(Plus(p, q), Minus(p, q)), Scale(2.0 * c, x + y);
    forall i | 0 <= i < 2 * |x|
      ensures l[i] == r[i]
    {
      var m := if i < |x| then i else i - |x|;
      assert p[m] == c * x[m] && q[m] == c * y[m];
    }
  }

  function Energy(x: seq<real>): real {
    if x == [] then 0.0 else Energy(x[..|x| - 1]) + x[|x| - 1] * x[|x| - 1]
  }

  lemma {:induction false} EnergyConcat(x: seq<real>, y: seq<real>)
    ensures Energy(x + y) == Energy(x) + Energy(y)
  {
    if y == [] {
      assert x + y == x;
    } else {
      EnergyConcat(x, y[..|y| - 1]);
      assert (x + y)[..|x + y| - 1] == x + y[..|y| - 1];
    }
  }

  /** One butterfly doubles the energy of a pair of halves. */
  lemma {:induction false} EnergyButterfly(a: seq<real>, b: seq<real>)
    requires |a| == |b|
    ensures Energy(Plus(a, b)) + Energy(Minus(a, b)) == 2.0 * (Energy(a) + Energy(b))
  {
    if a != [] {
      var n := |a| - 1;
      EnergyButterfly(a[..n], b[..n]);
      assert Plus(a, b)[..n] == Plus(a[..n], b[..n]) && Minus(a, b)[..n] == Minus(a[..n], b[..n]);
      SquareButterfly(a[n], b[n]);
    }
  }

  lemma SquareButterfly(x: real, y: real)
    ensures (x + y) * (x + y) + (x - y) * (x - y) == 2.0 * (x * x + y * y)
  {
  }

  lemma EnergyArithmetic(h: real, g: real, x: real, y: real)
    requires g == 2.0 * h
    ensures 2.0 * (h * x + h * y) == g * (x + y)
  {
  }

  /** The transform multiplies the sum of squares by the block length. */
  lemma {:induction false} TransformEnergy(k: nat, x: seq<real>)
    requires |x| == Pow2(k)
    ensures Energy(Transform(k, x)) == Pow2(k) as real * Energy(x)
  {
    hide *;
    if k > 0 {
      var h := Pow2(k - 1);
      TransformHalves(k, x, h);
      var a, b := Transform(k - 1, x[..h]), Transform(k - 1, x[h..]);
      TransformEnergy(k - 1, x[..h]);
      TransformEnergy(k - 1, x[h..]);
      EnergyOfButterfly(a, b);
      EnergyConcat(x[..h], x[h..]);
      JoinHalves(x, h);
      Doubled(k, h);
      EnergyArithmetic(h as real, Pow2(k) as real, Energy(x[..h]), Energy(x[h..]));
    } else {
      TransformOfOne(x);
      UnitTimes(Energy(x));
    }
  }

  lemma UnitTimes(e: real)
    ensures Pow2(0) as real * e == e
  {
  }

  lemma EnergyOfButterfly(a: seq<real>, b: seq<real>)
    requires |a| == |b|
    ensures Energy(Butterfly(a, b)) == 2.0 * (Energy(a) + Energy(b))
  {
    hide Plus, Minus, Energy;
    EnergyButterfly(a, b);
    EnergyConcat(Plus(a, b), Minus(a, b));
  }
}
