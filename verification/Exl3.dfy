/**
 The EXL3 encoder of bench/exl3_quantize.metal and the window reader of
 lib/metal_exl3_codegen.ml that decodes what it wrote. Each of 256 weights of a tile gets a
 four-bit choice; what the weight decodes to is a codebook entry selected by the last 16 bits.
 Squared errors are exact reals and the codebook is any function of a 16-bit window.
 */
module Exl3 {
  import opened Nibbles

  type Codebook = int -> real

  // ---------------------------------------------------------------------------------------
  // Where a weight of the 16 x 16 tile goes
  // ---------------------------------------------------------------------------------------

  /** `exl3_position`. */
  function Position(r: nat, c: nat): (p: nat)
    requires r < 16 && c < 16
    ensures p < 256
  {
    (c % 8 * 4 + r % 8 / 2) * 8 + (r % 2 + r / 8 * 2 + c / 8 * 4)
  }

  function RowOf(p: nat): (r: nat)
    requires p < 256
    ensures r < 16
  {
    p % 8 / 2 % 2 * 8 + p / 8 % 4 * 2 + p % 2
  }

  function ColumnOf(p: nat): (c: nat)
    requires p < 256
    ensures c < 16
  {
    p % 8 / 4 * 8 + p / 32
  }

  /** Every one of the 256 positions belongs to exactly one weight. */
  lemma PositionIsBijective(r: nat, c: nat, p: nat)
    requires r < 16 && c < 16 && p < 256
    ensures Position(r, c) == p <==> r == RowOf(p) && c == ColumnOf(p)
  {
    hide Position, RowOf, ColumnOf;
    WeightOfPosition(r, c);
    PositionOfWeight(p);
  }

  lemma WeightOfPosition(r: nat, c: nat)
    requires r < 16 && c < 16
    ensures RowOf(Position(r, c)) == r && ColumnOf(Position(r, c)) == c
  {
    assert r == r / 8 * 8 + r % 8 / 2 * 2 + r % 2;
    PositionInverts(c / 8, c % 8, r / 8, r % 8 / 2, r % 2);
  }

  lemma PositionOfWeight(p: nat)
    requires p < 256
    ensures Position(RowOf(p), ColumnOf(p)) == p
  {
    var t, j := p / 8, p % 8;
    PositionDigits(p);
    PositionRestores(j / 4, j / 2 % 2, j % 2, t / 4, t % 4);
  }

  lemma PositionDigits(p: nat)
    requires p < 256
    ensures var t, j := p / 8, p % 8;
            && p == t * 8 + j && t == t / 4 * 4 + t % 4 && t / 4 < 8
            && j == j % 2 + j / 2 % 2 * 2 + j / 4 * 4 && j / 4 < 2
            && RowOf(p) == j / 2 % 2 * 8 + t % 4 * 2 + j % 2 && ColumnOf(p) == j / 4 * 8 + t / 4
  {
    EightDigits(p % 8);
    assert p / 32 == p / 8 / 4;
    assert p % 2 == p % 8 % 2;
  }

  lemma EightDigits(j: nat)
    requires j < 8
    ensures j == j % 2 + j / 2 % 2 * 2 + j / 4 * 4 && j / 4 < 2
  {
  }

  lemma PositionInverts(c3: nat, c: nat, r3: nat, rm: nat, r0: nat)
    requires c3 < 2 && c < 8 && r3 < 2 && rm < 4 && r0 < 2
    ensures var p := (c * 4 + rm) * 8 + (r0 + r3 * 2 + c3 * 4);
            RowOf(p) == r3 * 8 + rm * 2 + r0 && ColumnOf(p) == c3 * 8 + c
  {
    var j := r0 + r3 * 2 + c3 * 4;
    var p := (c * 4 + rm) * 8 + j;
    assert p / 8 == c * 4 + rm && p % 8 == j && p / 32 == c;
    assert p % 2 == r0;
    ThreeBits(c3, r3, r0);
  }

  lemma ThreeBits(c3: nat, r3: nat, r0: nat)
    requires c3 < 2 && r3 < 2 && r0 < 2
    ensures var j := r0 + r3 * 2 + c3 * 4; j / 2 % 2 == r3 && j / 4 == c3 && j % 2 == r0
  {
  }

  lemma PositionRestores(c3: nat, r3: nat, r0: nat, c: nat, rm: nat)
    requires c3 < 2 && c < 8 && r3 < 2 && rm < 4 && r0 < 2
    ensures Position(r3 * 8 + rm * 2 + r0, c3 * 8 + c) == (c * 4 + rm) * 8 + (r0 + r3 * 2 + c3 * 4)
  {
    var x, y := r3 * 8 + rm * 2 + r0, c3 * 8 + c;
    assert x / 8 == r3 && x % 8 == rm * 2 + r0 && x % 2 == r0;
    assert y / 8 == c3 && y % 8 == c;
  }

  // ---------------------------------------------------------------------------------------
  // The encoder's choices
  // ---------------------------------------------------------------------------------------

  function Next(state: nat, choice: nat): nat {
    (state * 16 + choice) % 0x1_0000
  }

  function Squared(x: real): (y: real)
    ensures y >= 0.0
  {
    x * x
  }

  /** The squared error of taking `b` one step later, from the state `next`. */
  function LookError(cb: Codebook, target: seq<real>, next: nat, i: nat, b: nat): real
    requires |target| == 256
  {
    Squared(cb(Next(next, b)) - target[(i + 1) % 256])
  }

  /** The squared error of taking `choice` now and `b` one step later. */
  function TwoStepError(cb: Codebook, target: seq<real>, state: nat, i: nat, choice: nat, b: nat): real
    requires |target| == 256 && i < 256
  {
    var next := Next(state, choice);
    Squared(cb(next) - target[i]) + LookError(cb, target, next, i, b)
  }

  /**
   What is compared: the squared distance from the target of what position `i` decodes to, and of what
   the next position decodes to; after the last position comes the first.
   */
  lemma TwoStepErrorIs(cb: Codebook, target: seq<real>, state: nat, i: nat, choice: Nibble, b: Nibble)
    requires |target| == 256 && i < 256
    ensures var d := cb((16 * state + choice) % 65536) - target[i];
            var e := cb((256 * state + 16 * choice + b) % 65536) - target[if i == 255 then 0 else i + 1];
            TwoStepError(cb, target, state, i, choice, b) == d * d + e * e
  {
    TwoNext(state, choice, b);
    ErrorParts(cb, target, state, i, choice, b);
    hide *;
    SquareIs(cb((16 * state + choice) % 65536) - target[i]);
    SquareIs(cb((256 * state + 16 * choice + b) % 65536) - target[if i == 255 then 0 else i + 1]);
  }

  lemma SquareIs(x: real)
    ensures Squared(x) == x * x
  {
  }

  lemma ErrorParts(cb: Codebook, target: seq<real>, state: nat, i: nat, choice: Nibble, b: Nibble)
    requires |target| == 256 && i < 256
    ensures TwoStepError(cb, target, state, i, choice, b)
         == Squared(cb(Next(state, choice)) - target[i])
            + Squared(cb(Next(Next(state, choice), b)) - target[if i == 255 then 0 else i + 1])
  {
    hide Next, Squared;
    assert (i + 1) % 256 == if i == 255 then 0 else i + 1;
  }

  lemma TwoNext(state: nat, choice: nat, b: nat)
    ensures Next(state, choice) == (16 * state + choice) % 65536
    ensures Next(Next(state, choice), b) == (256 * state + 16 * choice + b) % 65536
  {
    var x := 16 * state + choice;
    assert x == 65536 * (x / 65536) + x % 65536;
    WholeTurns(16 * (x % 65536) + b, 16 * (x / 65536));
  }

  lemma WholeTurns(y: nat, q: nat)
    ensures (65536 * q + y) % 65536 == y % 65536
  {
    assert y == 65536 * (y / 65536) + y % 65536;
    assert 65536 * q + y == 65536 * (q + y / 65536) + y % 65536;
  }

  /** `choice` is the least nibble that some continuation makes optimal over two steps. */
  ghost predicate IsBest(cb: Codebook, target: seq<real>, state: nat, i: nat, choice: Nibble)
    requires |target| == 256 && i < 256
  {
    exists b: Nibble ::
      && (forall n: Nibble, a: Nibble ::
            TwoStepError(cb, target, state, i, choice, b) <= TwoStepError(cb, target, state, i, n, a))
      && (forall n: Nibble, a: Nibble :: n < choice ==>
            TwoStepError(cb, target, state, i, choice, b) < TwoStepError(cb, target, state, i, n, a))
  }

  /** The 16-bit state after a run of choices, starting from zero. */
  function StateAfter(choices: seq<Nibble>): nat {
    if choices == [] then 0 else Next(StateAfter(choices[..|choices| - 1]), choices[|choices| - 1])
  }

  /** Every choice of a run is the best one in the state the earlier choices led to. */
  ghost predicate IsRun(cb: Codebook, target: seq<real>, choices: seq<Nibble>)
    requires |target| == 256
  {
    forall t :: 0 <= t < |choices| ==> IsBest(cb, target, StateAfter(choices[..t]), t % 256, choices[t])
  }

  lemma BestIsUnique(cb: Codebook, target: seq<real>, state: nat, i: nat, x: Nibble, y: Nibble)
    requires |target| == 256 && i < 256
    requires IsBest(cb, target, state, i, x) && IsBest(cb, target, state, i, y)
    ensures x == y
  {
    var bestX: Nibble :| forall n: Nibble, a: Nibble ::
      TwoStepError(cb, target, state, i, x, bestX) <= TwoStepError(cb, target, state, i, n, a)
      && (n < x ==> TwoStepError(cb, target, state, i, x, bestX) < TwoStepError(cb, target, state, i, n, a));
    var bestY: Nibble :| forall n: Nibble, a: Nibble ::
      TwoStepError(cb, target, state, i, y, bestY) <= TwoStepError(cb, target, state, i, n, a)
      && (n < y ==> TwoStepError(cb, target, state, i, y, bestY) < TwoStepError(cb, target, state, i, n, a));
    hide TwoStepError;
    assert TwoStepError(cb, target, state, i, x, bestX) <= TwoStepError(cb, target, state, i, y, bestY);
  }

  /** The rule leaves no freedom: two runs of the same length are the same run. */
  lemma {:induction false} RunIsUnique(cb: Codebook, target: seq<real>, x: seq<Nibble>, y: seq<Nibble>)
    requires |target| == 256 && |x| == |y| && IsRun(cb, target, x) && IsRun(cb, target, y)
    ensures x == y
  {
    hide *;
    if x != [] {
      var n := |x| - 1;
      RunPrefix(cb, target, x, n);
      RunPrefix(cb, target, y, n);
      RunIsUnique(cb, target, x[..n], y[..n]);
      RunAt(cb, target, x, n);
      RunAt(cb, target, y, n);
      BestIsUnique(cb, target, StateAfter(x[..n]), n % 256, x[n], y[n]);
      SameSnoc(x, y, n);
    }
  }

  lemma RunAt(cb: Codebook, target: seq<real>, x: seq<Nibble>, t: nat)
    requires |target| == 256 && t < |x| && IsRun(cb, target, x)
    ensures IsBest(cb, target, StateAfter(x[..t]), t % 256, x[t])
  {
    hide IsBest, StateAfter;
  }

  lemma SameSnoc(x: seq<Nibble>, y: seq<Nibble>, n: nat)
    requires |x| == |y| == n + 1 && x[..n] == y[..n] && x[n] == y[n]
    ensures x == y
  {
    assert x == x[..n] + [x[n]] && y == y[..n] + [y[n]];
  }

  lemma RunPrefix(cb: Codebook, target: seq<real>, x: seq<Nibble>, n: nat)
    requires |target| == 256 && n <= |x| && IsRun(cb, target, x)
    ensures IsRun(cb, target, x[..n])
  {
    hide IsBest;
    forall t | 0 <= t < n
      ensures IsBest(cb, target, StateAfter(x[..n][..t]), t % 256, x[..n][t])
    {
      assert x[..n][..t] == x[..t];
    }
  }

  /** From the fourth choice on, the state is the last four choices and nothing else. */
  lemma StateIsWindow(choices: seq<Nibble>)
    requires |choices| >= 4
    ensures StateAfter(choices) == Value(choices[|choices| - 4..])
  {
    PowersOf16();
    hide *;
    StateIsTail(choices);
    SplitValue(choices, |choices| - 4);
  }

  lemma {:induction false} StateIsTail(choices: seq<Nibble>)
    ensures StateAfter(choices) == Value(choices) % 0x1_0000
  {
    hide Next;
    if choices != [] {
      var prefix, last := choices[..|choices| - 1], choices[|choices| - 1];
      StateIsTail(prefix);
      hide StateAfter, Value;
      NextOfTail(Value(prefix), last);
    }
  }

  lemma NextOfTail(x: nat, d: Nibble)
    ensures Next(x % 0x1_0000, d) == (16 * x + d) % 0x1_0000
  {
    var q, r := x / 0x1_0000, x % 0x1_0000;
    assert 16 * x + d == (r * 16 + d) + 0x1_0000 * (16 * q);
    AddMultiple(r * 16 + d, 16 * q);
  }

  lemma AddMultiple(x: nat, q: nat)
    ensures (x + 0x1_0000 * q) % 0x1_0000 == x % 0x1_0000
  {
  }

  // ---------------------------------------------------------------------------------------
  // Words and windows
  // ---------------------------------------------------------------------------------------

  /** Word `w` of a packed tile holds choices 8w .. 8w + 7, the first in the top four bits. */
  function Word(choices: seq<Nibble>, w: nat): nat
    requires 8 * w + 8 <= |choices|
  {
    Value(choices[8 * w..8 * w + 8])
  }

  function Pack(choices: seq<Nibble>): (words: seq<nat>)
    requires |choices| == 256
    ensures |words| == 32 && forall w :: 0 <= w < 32 ==> words[w] == Word(choices, w) < 0x1_0000_0000
  {
    PowersOf16();
    forall w | 0 <= w < 32
      ensures Word(choices, w) < 0x1_0000_0000
    {
      ValueBound(choices[8 * w..8 * w + 8]);
    }
    seq(32, w requires 0 <= w < 32 => Word(choices, w))
  }

  /** `exl3_tile_weight` at four bits per weight: the 16-bit window that ends at `position`. */
  function ReadWindow(words: seq<nat>, position: nat): nat
    requires |words| == 32 && position < 256
  {
    var start := ((position + 1) * 4 + 1024 - 16) % 1024;
    WindowAt(words[start / 32], words[(start / 32 + 1) % 32], start % 32)
  }

  function WindowAt(a: nat, b: nat, shift: nat): nat
    requires shift < 32
  {
    if shift <= 16 then a / Shift(16 - shift) % 0x1_0000
    else (a * Shift(shift - 16) % 0x1_0000 + b / Shift(48 - shift)) % 0x1_0000
  }

  /** 2^n for the shift amounts of `ReadWindow`, which are multiples of four. */
  function Shift(n: int): nat {
    if n < 0 then 1 else Pow16(n / 4)
  }

  /** The four choices that end at `position`, around the ring of 256. */
  function Ring(choices: seq<Nibble>, position: nat): (s: seq<Nibble>)
    requires |choices| == 256 && position < 256
    ensures |s| == 4
  {
    seq(4, j requires 0 <= j < 4 => choices[(position + 253 + j) % 256])
  }

  /** Reading a window back from the packed words gives the four choices that end there. */
  lemma WindowOfPacked(choices: seq<Nibble>, position: nat)
    requires |choices| == 256 && position < 256
    ensures ReadWindow(Pack(choices), position) == Value(Ring(choices, position))
  {
    hide *;
    var w, o, v := FirstNibble(position);
    ReadsTwoWords(choices, position, w, o, v);
    RingIsSlice(choices, position, w, o, v);
    WindowOfWords(choices[8 * w..8 * w + 8], choices[8 * v..8 * v + 8], o);
  }

  /** The window that ends at `position` starts with nibble `o` of word `w`; word `v` is the next one. */
  predicate StartsAt(position: nat, w: nat, o: nat, v: nat) {
    && 8 * w + o == (position + 253) % 256 && o < 8
    && v == (w + 1) % 32
  }

  lemma FirstNibble(position: nat) returns (w: nat, o: nat, v: nat)
    requires position < 256
    ensures w < 32 && o < 8 && v < 32 && StartsAt(position, w, o, v)
  {
    var first := (position + 253) % 256;
    w, o, v := first / 8, first % 8, (first / 8 + 1) % 32;
  }

  lemma ReadsTwoWords(choices: seq<Nibble>, position: nat, w: nat, o: nat, v: nat)
    requires |choices| == 256 && position < 256 && w < 32 && o < 8 && v < 32 && StartsAt(position, w, o, v)
    ensures ReadWindow(Pack(choices), position)
         == WindowAt(Value(choices[8 * w..8 * w + 8]), Value(choices[8 * v..8 * v + 8]), 4 * o)
  {
    hide Value, WindowAt;
    StartOfWindow(position, w, o, v);
  }

  lemma WindowOfWords(x: seq<Nibble>, y: seq<Nibble>, o: nat)
    requires |x| == |y| == 8 && o < 8
    ensures WindowAt(Value(x), Value(y), 4 * o) == Value(if o <= 4 then x[o..o + 4] else x[o..] + y[..o - 4])
  {
    hide Value, Shift;
    if o <= 4 {
      InsideWord(x, o);
    } else {
      AcrossWords(x, y, o);
    }
  }

  lemma StartOfWindow(position: nat, w: nat, o: nat, v: nat)
    requires position < 256 && w < 32 && StartsAt(position, w, o, v)
    ensures var start := ((position + 1) * 4 + 1024 - 16) % 1024;
            start / 32 == w && start % 32 == 4 * o
  {
    FourTimes(position, 8 * w + o);
    hide *;
    ByWord(4 * (8 * w + o), w, 4 * o);
  }

  lemma FourTimes(position: nat, first: nat)
    requires position < 256 && first == (position + 253) % 256
    ensures ((position + 1) * 4 + 1024 - 16) % 1024 == 4 * first
  {
    assert first == if position < 3 then position + 253 else position - 3;
  }

  lemma ByWord(x: nat, w: nat, shift: nat)
    requires shift < 32 && x == 32 * w + shift
    ensures x / 32 == w && x % 32 == shift
  {
  }

  lemma RingIsSlice(choices: seq<Nibble>, position: nat, w: nat, o: nat, v: nat)
    requires |choices| == 256 && position < 256 && w < 32 && o < 8 && v < 32 && StartsAt(position, w, o, v)
    ensures var x, y := choices[8 * w..8 * w + 8], choices[8 * v..8 * v + 8];
            Ring(choices, position) == if o <= 4 then x[o..o + 4] else x[o..] + y[..o - 4]
  {
    hide *;
    var x, y := choices[8 * w..8 * w + 8], choices[8 * v..8 * v + 8];
    var ring := Ring(choices, position);
    forall j | 0 <= j < 4
      ensures ring[j] == if o + j < 8 then x[o + j] else y[o + j - 8]
    {
      RingEntry(choices, position, w, o, v, j);
    }
  }

  lemma RingEntry(choices: seq<Nibble>, position: nat, w: nat, o: nat, v: nat, j: nat)
    requires |choices| == 256 && position < 256 && w < 32 && o < 8 && v < 32 && StartsAt(position, w, o, v) && j < 4
    ensures Ring(choices, position)[j] == if o + j < 8 then choices[8 * w + o + j] else choices[8 * v + (o + j - 8)]
  {
    RingIndex(position, w, o, v, j);
  }

  lemma RingIndex(position: nat, w: nat, o: nat, v: nat, j: nat)
    requires position < 256 && j < 4 && w < 32 && StartsAt(position, w, o, v)
    ensures (position + 253 + j) % 256 == if o + j < 8 then 8 * w + o + j else 8 * v + (o + j - 8)
  {
    assert 8 * w + o == if position < 3 then position + 253 else position - 3;
    assert o + j >= 8 && w < 31 ==> v == w + 1;
  }

  lemma InsideWord(x: seq<Nibble>, o: nat)
    requires |x| == 8 && o <= 4
    ensures Value(x) / Shift(16 - 4 * o) % 0x1_0000 == Value(x[o..o + 4])
  {
    PowersOf16();
    assert Shift(16 - 4 * o) == Pow16(4 - o);
    hide Value, Pow16, Shift;
    SplitValue(x, 4 + o);
    SplitValue(x[..4 + o], o);
    assert x[..4 + o][o..] == x[o..o + 4];
  }

  lemma AcrossWords(x: seq<Nibble>, y: seq<Nibble>, o: nat)
    requires |x| == |y| == 8 && 4 < o < 8
    ensures (Value(x) * Shift(4 * o - 16) % 0x1_0000 + Value(y) / Shift(48 - 4 * o)) % 0x1_0000
         == Value(x[o..] + y[..o - 4])
  {
    var k := o - 4;
    assert Shift(4 * o - 16) == Pow16(k) && Shift(48 - 4 * o) == Pow16(8 - k);
    SplitValue(y, k);
    HighDigits(x, k);
    ValueConcat(x[o..], y[..k]);
    ValueBound(x[o..] + y[..k]);
    PowersOf16();
  }

  /** Shifting left by `k` digits inside 16 bits keeps the last 4 - k of them. */
  lemma HighDigits(x: seq<Nibble>, k: nat)
    requires |x| == 8 && 0 < k < 4
    ensures Value(x) * Pow16(k) % 0x1_0000 == Value(x[4 + k..]) * Pow16(k)
  {
    PowersOf16();
    hide *;
    var hi, lo := Value(x[..4 + k]), Value(x[4 + k..]);
    assert x == x[..4 + k] + x[4 + k..];
    ValueConcat(x[..4 + k], x[4 + k..]);
    ValueBound(x[4 + k..]);
    PowAdd(4 - k, k);
    ShiftedParts(hi, lo, Pow16(4 - k), Pow16(k), lo * Pow16(k));
    DivMod(hi, lo * Pow16(k), 0x1_0000);
  }

  lemma ShiftedParts(hi: nat, lo: nat, p: nat, k: nat, low: nat)
    requires lo < p && k > 0 && p * k == 0x1_0000 && low == lo * k
    ensures (hi * p + lo) * k == hi * 0x1_0000 + low && low < 0x1_0000
  {
    assert (hi * p + lo) * k == hi * (p * k) + lo * k;
    assert lo * k < p * k;
  }
}
