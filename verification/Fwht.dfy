/**
 `fwht128` of bench/convert_gguf_exl3.py: the in-place butterfly passes over a flat buffer, and the
 rotation of a matrix along both axes that is built from them.
 */
module Fwht {
  import opened Walsh

  // ---------------------------------------------------------------------------------------
  // A buffer of consecutive blocks
  // ---------------------------------------------------------------------------------------

  lemma OneBlockLess(m: nat, n: nat)
    requires m > 0
    ensures m * n - n == (m - 1) * n >= 0
  {
  }

  /** Every one of `m` consecutive blocks transformed. */
  function Blocks(k: nat, m: nat, v: seq<real>): (r: seq<real>)
    requires |v| == m * Pow2(k)
    ensures |r| == |v|
  {
    if m == 0 then []
    else
      OneBlockLess(m, Pow2(k));
      var cut := |v| - Pow2(k);
      Blocks(k, m - 1, v[..cut]) + Transform(k, v[cut..])
  }

  /** One butterfly pass: `m` pairs of neighbouring runs of `h` become their sum and difference. */
  function Pass(h: nat, m: nat, v: seq<real>): (r: seq<real>)
    requires |v| == m * (2 * h)
    ensures |r| == |v|
  {
    if m == 0 then []
    else
      OneBlockLess(m, 2 * h);
      var cut := |v| - 2 * h;
      Pass(h, m - 1, v[..cut]) + Butterfly(v[cut..cut + h], v[cut + h..])
  }

  lemma BlocksSnoc(k: nat, m: nat, v: seq<real>, w: seq<real>)
    requires |v| == m * Pow2(k) && |w| == Pow2(k)
    ensures |v + w| == (m + 1) * Pow2(k)
    ensures Blocks(k, m + 1, v + w) == Blocks(k, m, v) + Transform(k, w)
  {
    hide Transform;
    OneBlockLess(m + 1, Pow2(k));
    assert (v + w)[..|v|] == v && (v + w)[|v|..] == w;
  }

  lemma PassSnoc(h: nat, m: nat, v: seq<real>, a: seq<real>, b: seq<real>)
    requires |v| == m * (2 * h) && |a| == |b| == h
    ensures |v + (a + b)| == (m + 1) * (2 * h)
    ensures Pass(h, m + 1, v + (a + b)) == Pass(h, m, v) + Butterfly(a, b)
  {
    hide Butterfly;
    OneBlockLess(m + 1, 2 * h);
    var w := v + (a + b);
    assert w[..|v|] == v && w[|v|..|v| + h] == a && w[|v| + h..] == b;
  }

  /** Passing over transformed blocks transforms the blocks of twice the length. */
  lemma {:induction false} PassDoublesBlocks(k: nat, m: nat, v: seq<real>)
    requires |v| == m * Pow2(k + 1) == 2 * m * Pow2(k)
    ensures m * (2 * Pow2(k)) == |v|
    ensures Pass(Pow2(k), m, Blocks(k, 2 * m, v)) == Blocks(k + 1, m, v)
  {
    hide Butterfly, Pass, Blocks, Transform;
    var h := Pow2(k);
    assert Pow2(k + 1) == 2 * h;
    if m > 0 {
      var cut := |v| - 2 * h;
      OneBlockLess(m, 2 * h);
      OneBlockLess(2 * m, h);
      OneBlockLess(2 * m - 1, h);
      var u, a, b := v[..cut], v[cut..cut + h], v[cut + h..];
      PassDoublesBlocks(k, m - 1, u);
      BlocksSnoc(k, 2 * (m - 1), u, a);
      BlocksSnoc(k, 2 * (m - 1) + 1, u + a, b);
      BlocksSnoc(k + 1, m - 1, u, a + b);
      TransformSplits(k, a, b);
      PassSnoc(h, m - 1, Blocks(k, 2 * (m - 1), u), Transform(k, a), Transform(k, b));
      Rejoin(v, cut, h);
      Reassociate(Blocks(k, 2 * (m - 1), u), Transform(k, a), Transform(k, b));
    } else {
      NoBlocks(k, h, v);
    }
  }

  lemma Rejoin(v: seq<real>, cut: nat, h: nat)
    requires cut + 2 * h == |v|
    ensures v == v[..cut] + v[cut..cut + h] + v[cut + h..] == v[..cut] + (v[cut..cut + h] + v[cut + h..])
  {
  }

  lemma Reassociate(u: seq<real>, a: seq<real>, b: seq<real>)
    ensures u + a + b == u + (a + b)
  {
  }

  lemma NoBlocks(k: nat, h: nat, v: seq<real>)
    requires |v| == 0
    ensures Blocks(k, 0, v) == Blocks(k + 1, 0, v) == Pass(h, 0, v) == []
  {
  }

  lemma TransformSplits(k: nat, a: seq<real>, b: seq<real>)
    requires |a| == |b| == Pow2(k)
    ensures |a + b| == Pow2(k + 1)
    ensures Transform(k + 1, a + b) == Butterfly(Transform(k, a), Transform(k, b))
  {
    assert (a + b)[..|a|] == a && (a + b)[|a|..] == b;
  }

  // ---------------------------------------------------------------------------------------
  // In place
  // ---------------------------------------------------------------------------------------

  /** What one pair of runs of `x`, at `base`, turns into in `y`. */
  ghost predicate Mixed(x: seq<real>, y: seq<real>, base: nat, h: nat) {
    && |x| == |y| && base + 2 * h <= |x|
    && (forall i :: 0 <= i < |x| && !(base <= i < base + 2 * h) ==> y[i] == x[i])
    && (forall i {:trigger y[i]} :: base <= i < base + h ==> y[i] == x[i] + x[i + h])
    && (forall i {:trigger y[i]} :: base + h <= i < base + 2 * h ==> y[i] == x[i - h] - x[i])
  }

  lemma MixedParts(x: seq<real>, y: seq<real>, base: nat, h: nat)
    requires Mixed(x, y, base, h)
    ensures base + 2 * h <= |x| == |y|
    ensures y[..base] == x[..base] && y[base + 2 * h..] == x[base + 2 * h..]
    ensures y[base..base + 2 * h] == Butterfly(x[base..base + h], x[base + h..base + 2 * h])
  {
    var a, b := x[base..base + h], x[base + h..base + 2 * h];
    var r := Butterfly(a, b);
    var z := y[base..base + 2 * h];
    forall i | 0 <= i < 2 * h
      ensures z[i] == r[i]
    {
      assert z[i] == y[base + i];
      assert r[i] == if i < h then a[i] + b[i] else a[i - h] - b[i - h];
    }
  }

  method ButterflyInPlace(v: array<real>, base: nat, h: nat)
    requires base + 2 * h <= v.Length
    modifies v
    ensures Mixed(old(v[..]), v[..], base, h)
  {
    ghost var x := v[..];
    for j := 0 to h
      invariant forall i :: 0 <= i < base || base + 2 * h <= i < v.Length ==> v[i] == x[i]
      invariant forall i {:trigger v[i]} :: base <= i < base + j ==> v[i] == x[i] + x[i + h]
      invariant forall i {:trigger v[i]} :: base + h <= i < base + h + j ==> v[i] == x[i - h] - x[i]
      invariant forall i :: base + j <= i < base + h || base + h + j <= i < base + 2 * h ==> v[i] == x[i]
    {
      var a, b := v[base + j], v[base + h + j];
      v[base + j], v[base + h + j] := a + b, a - b;
    }
  }

  /** The first `q` pairs of runs of `x` have been passed over, the rest not yet. */
  ghost predicate Passed(x: seq<real>, y: seq<real>, q: nat, h: nat) {
    var base := q * (2 * h);
    |x| == |y| && base <= |x| && y[..base] == Pass(h, q, x[..base]) && y[base..] == x[base..]
  }

  lemma PassEnds(x: seq<real>, y: seq<real>, m: nat, h: nat)
    requires |x| == |y| == m * (2 * h)
    ensures Passed(x, x, 0, h)
    ensures Passed(x, y, m, h) ==> y == Pass(h, m, x)
  {
    assert x[..|x|] == x && y[..|y|] == y;
  }

  lemma PassedParts(x: seq<real>, y: seq<real>, q: nat, h: nat, base: nat)
    requires base == q * (2 * h) <= |x| == |y|
    ensures Passed(x, y, q, h) <==> y[..base] == Pass(h, q, x[..base]) && y[base..] == x[base..]
  {
  }

  /** What two buffers that agree from `base` on have in common around the pair of runs there. */
  lemma SameRuns(x: seq<real>, y: seq<real>, base: nat, h: nat)
    requires base + 2 * h <= |x| == |y| && y[base..] == x[base..]
    ensures y[base..base + h] == x[base..base + h] && y[base + h..base + 2 * h] == x[base + h..base + 2 * h]
    ensures y[base + 2 * h..] == x[base + 2 * h..]
  {
    DropSlice(x, base, 0, h);
    DropSlice(y, base, 0, h);
    DropSlice(x, base, h, 2 * h);
    DropSlice(y, base, h, 2 * h);
    DropSlice(x, base, 2 * h, |x| - base);
    DropSlice(y, base, 2 * h, |y| - base);
    assert x[base + 2 * h..] == x[base + 2 * h..|x|] && y[base + 2 * h..] == y[base + 2 * h..|y|];
  }

  lemma DropSlice(x: seq<real>, base: nat, i: nat, j: nat)
    requires i <= j && base + j <= |x|
    ensures x[base + i..base + j] == x[base..][i..j]
  {
  }

  lemma Join(x: seq<real>, i: nat, j: nat, k: nat)
    requires i <= j <= k <= |x|
    ensures x[i..k] == x[i..j] + x[j..k]
  {
  }

  lemma PassStep(x: seq<real>, before: seq<real>, after: seq<real>, q: nat, h: nat, base: nat)
    requires base == q * (2 * h) <= |x| == |before|
    requires Passed(x, before, q, h) && Mixed(before, after, base, h)
    ensures Passed(x, after, q + 1, h)
  {
    hide *;
    PassedParts(x, before, q, h, base);
    MixedParts(before, after, base, h);
    OneBlockLess(q + 1, 2 * h);
    SameRuns(x, before, base, h);
    PassSnoc(h, q, x[..base], x[base..base + h], x[base + h..base + 2 * h]);
    Join(x, 0, base, base + 2 * h);
    Join(x, base, base + h, base + 2 * h);
    Join(after, 0, base, base + 2 * h);
    PassedParts(x, after, q + 1, h, base + 2 * h);
  }

  method PassInPlace(v: array<real>, h: nat, m: nat)
    requires v.Length == m * (2 * h)
    modifies v
    ensures v[..] == Pass(h, m, old(v[..]))
  {
    hide Mixed, Pass, Passed;
    PassEnds(v[..], v[..], m, h);
    var base := 0;
    for q := 0 to m
      invariant base == q * (2 * h) && Passed(old(v[..]), v[..], q, h)
    {
      ghost var before := v[..];
      RunFits(q, m, 2 * h);
      ButterflyInPlace(v, base, h);
      PassStep(old(v[..]), before, v[..], q, h, base);
      base := base + 2 * h;
    }
    PassEnds(old(v[..]), v[..], m, h);
  }

  lemma RunFits(q: nat, m: nat, n: nat)
    requires q < m
    ensures q * n + n <= m * n
  {
    assert (q + 1) * n <= m * n;
  }

  /**
   The body of `fwht128` on `m` rows of 2^k numbers (k = 7 in the code): passes with steps 1, 2, 4, ...
   and then the factor `c`. Every row has been transformed and scaled, in place.
   */
  method TransformRows(v: array<real>, k: nat, m: nat, c: real)
    requires v.Length == m * Pow2(k)
    modifies v
    ensures v[..] == Scale(c, Blocks(k, m, old(v[..])))
  {
    ButterflyPasses(v, k, m);
    ScaleInPlace(v, c);
  }

  method ScaleInPlace(v: array<real>, c: real)
    modifies v
    ensures v[..] == Scale(c, old(v[..]))
  {
    ghost var scaled := Scale(c, v[..]);
    for i := 0 to v.Length
      invariant forall j :: 0 <= j < i ==> v[j] == scaled[j]
      invariant forall j :: i <= j < v.Length ==> v[j] == old(v[j])
    {
      assert scaled[i] == c * v[i];
      v[i] := v[i] * c;
    }
  }

  method ButterflyPasses(v: array<real>, k: nat, m: nat)
    requires v.Length == m * Pow2(k)
    modifies v
    ensures v[..] == Blocks(k, m, old(v[..]))
  {
    hide Blocks, Pass, Pow2;
    var step, pairs := 1, m * Pow2(k);
    ghost var s := 0;
    BlocksOfOne(v[..]);
    while step < Pow2(k)
      invariant s <= k && step == Pow2(s) && v.Length == pairs * step && pairs == m * Pow2(k - s)
      invariant v[..] == Blocks(s, pairs, old(v[..]))
      decreases k - s
    {
      NextStep(m, k, s);
      pairs := pairs / 2;
      PassInPlace(v, step, pairs);
      PassDoublesBlocks(s, pairs, old(v[..]));
      step, s := 2 * step, s + 1;
    }
    PowersGrow(s, k);
  }

  lemma {:induction false} PowersGrow(s: nat, k: nat)
    requires s <= k
    ensures Pow2(s) <= Pow2(k) && (Pow2(s) == Pow2(k) ==> s == k)
    ensures Pow2(0) == 1
  {
    if s < k {
      PowersGrow(s, k - 1);
    }
  }

  lemma NextStep(m: nat, k: nat, s: nat)
    requires s <= k && Pow2(s) < Pow2(k)
    ensures s < k && var pairs := m * Pow2(k - s);
            pairs == 2 * (pairs / 2) && pairs / 2 == m * Pow2(k - (s + 1))
            && pairs * Pow2(s) == pairs / 2 * Pow2(s + 1) == pairs / 2 * (2 * Pow2(s))
            && Pow2(s + 1) == 2 * Pow2(s)
  {
    PowersGrow(s, k);
    assert s < k;
    assert Pow2(k - s) == 2 * Pow2(k - (s + 1)) && Pow2(s + 1) == 2 * Pow2(s);
    hide *;
    HalfThePairs(m, Pow2(k - s), Pow2(k - (s + 1)), Pow2(s));
  }

  lemma HalfThePairs(m: nat, p: nat, q: nat, step: nat)
    requires p == 2 * q
    ensures var pairs := m * p;
            pairs == 2 * (pairs / 2) && pairs / 2 == m * q && pairs * step == pairs / 2 * (2 * step)
  {
    var half := m * q;
    assert m * p == 2 * half;
    assert (2 * half) * step == half * (2 * step);
  }

  lemma {:induction false} BlocksOfOne(v: seq<real>)
    ensures Pow2(0) == 1 && |v| * Pow2(0) == |v| && Blocks(0, |v|, v) == v
  {
    if v != [] {
      BlocksOfOne(v[..|v| - 1]);
    }
  }
}
