/** Finite sums of reals and the rearrangements the kernels and transforms rest on. */
module Sums {

  function Sum(n: nat, f: int -> real): real {
    if n == 0 then 0.0 else Sum(n - 1, f) + f(n - 1)
  }

  lemma {:induction false} SumEqual(n: nat, f: int -> real, g: int -> real)
    requires forall i :: 0 <= i < n ==> f(i) == g(i)
    ensures Sum(n, f) == Sum(n, g)
  {
    if n > 0 {
      SumEqual(n - 1, f, g);
    }
  }

  lemma {:induction false} SumPlus(n: nat, f: int -> real, g: int -> real)
    ensures Sum(n, i => f(i) + g(i)) == Sum(n, f) + Sum(n, g)
  {
    if n > 0 {
      SumPlus(n - 1, f, g);
    }
  }

  lemma {:induction false} SumScaled(n: nat, s: real, f: int -> real)
    ensures Sum(n, i => s * f(i)) == s * Sum(n, f)
  {
    if n > 0 {
      SumScaled(n - 1, s, f);
    }
  }

  lemma {:induction false} SumZero(n: nat, f: int -> real)
    requires forall i :: 0 <= i < n ==> f(i) == 0.0
    ensures Sum(n, f) == 0.0
  {
    if n > 0 {
      SumZero(n - 1, f);
    }
  }

  lemma {:induction false} SumConcat(n: nat, m: nat, f: int -> real)
    ensures Sum(n + m, f) == Sum(n, f) + Sum(m, i => f(n + i))
  {
    if m > 0 {
      SumConcat(n, m - 1, f);
    }
  }

  /** The order of two finite summations does not matter. */
  lemma {:induction false} SumSwap(n: nat, m: nat, f: (int, int) -> real)
    ensures Sum(n, i => Sum(m, j => f(i, j))) == Sum(m, j => Sum(n, i => f(i, j)))
  {
    if n == 0 {
      SumZero(m, j => Sum(n, i => f(i, j)));
    } else {
      SumSwap(n - 1, m, f);
      var last := j => f(n - 1, j);
      var before := j => Sum(n - 1, i => f(i, j));
      SumPlus(m, before, last);
      SumEqual(m, j => before(j) + last(j), j => Sum(n, i => f(i, j)));
      SumEqual(m, j => f(n - 1, j), last);
    }
  }

  /** A sum over `n * m` consecutive indices, taken `m` at a time. */
  lemma {:induction false} SumBlocks(n: nat, m: nat, f: int -> real)
    ensures Sum(n * m, f) == Sum(n, i => Sum(m, j => f(i * m + j)))
  {
    if n > 0 {
      SumBlocks(n - 1, m, f);
      SumConcat((n - 1) * m, m, f);
      assert n * m == (n - 1) * m + m;
      SumEqual(m, j => f((n - 1) * m + j), j => f((n - 1) * m + j));
    }
  }
}
