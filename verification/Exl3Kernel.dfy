/** The kernel `exl3_quantize` run on one tile, and what a decoder gets out of its words. */
module Exl3Kernel {
  import opened Nibbles
  import opened Exl3

  // ---------------------------------------------------------------------------------------
  // Gathering the tile
  // ---------------------------------------------------------------------------------------

  /** The index of element (r, c) of a tile in a row-major matrix with `n` columns. */
  function Source(n: nat, tile: nat, r: nat, c: nat): nat
    requires n >= 16
  {
    var kt, nt := tile / (n / 16), tile % (n / 16);
    (kt * 16 + r) * n + nt * 16 + c
  }

  lemma SourceInside(k: nat, n: nat, tile: nat, r: nat, c: nat)
    requires n > 0 && n % 16 == 0 && k % 16 == 0 && tile < k / 16 * (n / 16) && r < 16 && c < 16
    ensures Source(n, tile, r, c) < k * n
  {
    var w := n / 16;
    var kt, nt := tile / w, tile % w;
    TileRow(tile, k / 16, w);
    var row := kt * 16 + r;
    assert row + 1 <= k && nt * 16 + c + 1 <= n;
    RowInside(row, k, n, nt * 16 + c);
  }

  lemma TileRow(tile: nat, rows: nat, w: nat)
    requires w > 0 && tile < rows * w
    ensures tile / w < rows && tile % w < w
  {
    var q := tile / w;
    assert tile == q * w + tile % w;
    assert q >= rows ==> q * w >= rows * w;
  }

  lemma RowInside(row: nat, rows: nat, n: nat, c: nat)
    requires row < rows && c < n
    ensures row * n + c < rows * n
  {
    assert (row + 1) * n <= rows * n;
  }

  /** In a row-major matrix, entry (i, j) belongs to the tile of its row and column divided by 16, at their remainders. */
  lemma SourceIsRowMajor(n: nat, i: nat, j: nat)
    requires n > 0 && n % 16 == 0 && j < n
    ensures n >= 16 && Source(n, TileIndex(n, i, j), i % 16, j % 16) == i * n + j
  {
    var w, tile := n / 16, i / 16 * (n / 16) + j / 16;
    assert n == 16 * w && j / 16 < w;
    TileOf(tile, i / 16, j / 16, w);
    RowOfBlock(i, j, n);
  }

  lemma TileOf(tile: nat, kt: nat, nt: nat, w: nat)
    requires nt < w && tile == kt * w + nt
    ensures tile / w == kt && tile % w == nt
  {
    DivMod(kt, nt, w);
  }

  lemma RowOfBlock(i: nat, j: nat, n: nat)
    ensures (i / 16 * 16 + i % 16) * n + j / 16 * 16 + j % 16 == i * n + j
  {
    assert i / 16 * 16 + i % 16 == i && j / 16 * 16 + j % 16 == j;
  }

  /** `target` holds the 256 entries of a tile of the k by n matrix, each at its own position. */
  ghost predicate Gathers(target: seq<real>, input: seq<real>, k: nat, n: nat, tile: nat) {
    && |target| == 256 && |input| == k * n
    && forall i: nat, j: nat :: i < k && j < n && TileIndex(n, i, j) == tile ==>
         i * n + j < |input| && target[Position(i % 16, j % 16)] == input[i * n + j]
  }

  /** The tile of entry (i, j), counting along the rows of tiles. */
  function TileIndex(n: nat, i: nat, j: nat): nat {
    i / 16 * (n / 16) + j / 16
  }

  lemma GathersTile(target: seq<real>, input: seq<real>, k: nat, n: nat, tile: nat)
    requires n > 0 && n % 16 == 0 && |target| == 256 && |input| == k * n
    requires forall r: nat, c: nat :: r < 16 && c < 16 ==>
               Source(n, tile, r, c) < |input| && target[Position(r, c)] == input[Source(n, tile, r, c)]
    ensures Gathers(target, input, k, n, tile)
  {
    hide Source, Position, TileIndex;
    forall i: nat, j: nat | i < k && j < n && TileIndex(n, i, j) == tile
      ensures i * n + j < |input| && target[Position(i % 16, j % 16)] == input[i * n + j]
    {
      EntryOfTile(target, input, n, tile, i, j, i % 16, j % 16, i * n + j);
    }
  }

  lemma EntryOfTile(target: seq<real>, input: seq<real>, n: nat, tile: nat, i: nat, j: nat, r: nat, c: nat, at: nat)
    requires n > 0 && n % 16 == 0 && |target| == 256 && j < n && TileIndex(n, i, j) == tile
    requires r == i % 16 && c == j % 16 && at == i * n + j
    requires Source(n, tile, r, c) < |input| && target[Position(r, c)] == input[Source(n, tile, r, c)]
    ensures at < |input| && target[Position(r, c)] == input[at]
  {
    SourceIsRowMajor(n, i, j);
    hide Source, Position;
  }

  /** Every target cell that lane `lane` has reached at index `i`, and all cells of earlier lanes. */
  predicate Filled(p: nat, lane: nat, i: nat)
    requires p < 256
  {
    var x := RowOf(p) * 16 + ColumnOf(p);
    x % 32 < lane || (x % 32 == lane && x < i)
  }

  ghost predicate Gathered(target: seq<real>, input: seq<real>, n: nat, tile: nat, lane: nat, i: nat)
    requires n >= 16
  {
    |target| == 256
    && forall p: nat :: p < 256 && Filled(p, lane, i) ==>
         Source(n, tile, RowOf(p), ColumnOf(p)) < |input| && target[p] == input[Source(n, tile, RowOf(p), ColumnOf(p))]
  }

  method FillTarget(input: seq<real>, k: nat, n: nat, tile: nat) returns (target: array<real>)
    requires n > 0 && n % 16 == 0 && k % 16 == 0 && tile < k / 16 * (n / 16) && |input| == k * n
    ensures fresh(target) && target.Length == 256
    ensures Gathers(target[..], input, k, n, tile)
  {
    hide *;
    assert n >= 16;
    target := new real[256](_ => 0.0);
    GatherNothing(target[..], input, n, tile);
    for lane := 0 to 32
      invariant Gathered(target[..], input, n, tile, lane, lane)
    {
      var i := lane;
      while i < 256
        invariant lane <= i && i % 32 == lane
        invariant Gathered(target[..], input, n, tile, lane, i)
      {
        var r, c := i / 16, i % 16;
        SourceInside(k, n, tile, r, c);
        GatherOne(target[..], input, n, tile, lane, i, r, c);
        target[Position(r, c)] := input[Source(n, tile, r, c)];
        i := i + 32;
      }
      GatherLane(target[..], input, n, tile, lane, i);
    }
    GatheredAll(target[..], input, n, tile);
    GathersTile(target[..], input, k, n, tile);
  }

  lemma GatherNothing(target: seq<real>, input: seq<real>, n: nat, tile: nat)
    requires n >= 16 && |target| == 256
    ensures Gathered(target, input, n, tile, 0, 0)
  {
    hide Source;
  }

  lemma GatherOne(target: seq<real>, input: seq<real>, n: nat, tile: nat, lane: nat, i: nat, r: nat, c: nat)
    requires n >= 16 && i < 256 && i % 32 == lane && Gathered(target, input, n, tile, lane, i)
    requires r == i / 16 && c == i % 16 && Source(n, tile, r, c) < |input|
    ensures |target| == 256
    ensures Gathered(target[Position(r, c) := input[Source(n, tile, r, c)]], input, n, tile, lane, i + 32)
  {
    NextCell(lane, i);
    WeightOfPosition(r, c);
    hide Source, RowOf, ColumnOf, Position, Filled;
  }

  lemma GatherLane(target: seq<real>, input: seq<real>, n: nat, tile: nat, lane: nat, i: nat)
    requires n >= 16 && lane < 32 && i >= 256 && Gathered(target, input, n, tile, lane, i)
    ensures Gathered(target, input, n, tile, lane + 1, lane + 1)
  {
    LaneDone(lane, i);
    hide Source, RowOf, ColumnOf, Filled;
  }

  lemma GatheredAll(target: seq<real>, input: seq<real>, n: nat, tile: nat)
    requires n >= 16 && Gathered(target, input, n, tile, 32, 32)
    ensures |target| == 256
    ensures forall r: nat, c: nat :: r < 16 && c < 16 ==>
              Source(n, tile, r, c) < |input| && target[Position(r, c)] == input[Source(n, tile, r, c)]
  {
    AllFilled();
    hide Source, RowOf, ColumnOf, Filled, Position;
    forall r: nat, c: nat | r < 16 && c < 16
      ensures Source(n, tile, r, c) < |input| && target[Position(r, c)] == input[Source(n, tile, r, c)]
    {
      WeightOfPosition(r, c);
    }
  }

  lemma NextCell(lane: nat, i: nat)
    requires i < 256 && i % 32 == lane
    ensures forall p: nat :: p < 256 && Filled(p, lane, i + 32) ==> Filled(p, lane, i) || p == Position(i / 16, i % 16)
  {
    forall p: nat | p < 256 && Filled(p, lane, i + 32) && !Filled(p, lane, i)
      ensures p == Position(i / 16, i % 16)
    {
      SameCell(RowOf(p), ColumnOf(p), i);
      PositionOfWeight(p);
    }
  }

  lemma SameCell(r: nat, c: nat, i: nat)
    requires r < 16 && c < 16 && (r * 16 + c) % 32 == i % 32 && i <= r * 16 + c < i + 32
    ensures r == i / 16 && c == i % 16
  {
  }

  lemma LaneDone(lane: nat, i: nat)
    requires lane < 32 && i >= 256
    ensures forall p: nat :: p < 256 && Filled(p, lane + 1, lane + 1) ==> Filled(p, lane, i)
  {
    hide RowOf, ColumnOf;
  }

  lemma AllFilled()
    ensures forall p: nat :: p < 256 ==> Filled(p, 32, 32)
  {
  }

  // ---------------------------------------------------------------------------------------
  // One choice: sixteen candidate lanes, sixteen lookahead nibbles each
  // ---------------------------------------------------------------------------------------

  method LaneCost(cb: Codebook, target: seq<real>, state: nat, i: nat, lane: Nibble)
    returns (cost: real, ghost look: Nibble)
    requires |target| == 256 && i < 256
    ensures cost == TwoStepError(cb, target, state, i, lane, look)
    ensures forall b: Nibble :: cost <= TwoStepError(cb, target, state, i, lane, b)
  {
    var next := Next(state, lane);
    var delta := cb(next) - target[i];
    var d0 := cb(Next(next, 0)) - target[(i + 1) % 256];
    var best := d0 * d0;
    look := 0;
    for b := 1 to 16
      invariant best == LookError(cb, target, next, i, look)
      invariant forall a: Nibble :: a < b ==> best <= LookError(cb, target, next, i, a)
    {
      var d := cb(Next(next, b)) - target[(i + 1) % 256];
      if d * d < best {
        best, look := d * d, b;
      }
    }
    cost := delta * delta + best;
  }

  /** `simd_min` of the costs and then of the lanes that reach it; the other 16 lanes cost infinity. */
  method Choose(cb: Codebook, target: seq<real>, state: nat, i: nat) returns (choice: Nibble)
    requires |target| == 256 && i < 256
    ensures IsBest(cb, target, state, i, choice)
  {
    hide TwoStepError;
    var best, look := LaneCost(cb, target, state, i, 0);
    choice := 0;
    for lane := 1 to 16
      invariant choice < lane && best == TwoStepError(cb, target, state, i, choice, look)
      invariant forall n: Nibble, a: Nibble :: n < lane ==> best <= TwoStepError(cb, target, state, i, n, a)
      invariant forall n: Nibble, a: Nibble :: n < choice ==> best < TwoStepError(cb, target, state, i, n, a)
    {
      ghost var l: Nibble;
      var cost;
      cost, l := LaneCost(cb, target, state, i, lane);
      if cost < best {
        best, choice, look := cost, lane, l;
      }
    }
  }

  // ---------------------------------------------------------------------------------------
  // Three sweeps
  // ---------------------------------------------------------------------------------------

  lemma OneMoreChoice(choices: seq<Nibble>, choice: Nibble)
    ensures var more := choices + [choice];
            StateAfter(more) == Next(StateAfter(choices), choice)
            && Value(more) == 16 * Value(choices) + choice
            && (forall t :: 0 <= t <= |choices| ==> more[..t] == choices[..t])
  {
    assert (choices + [choice])[..|choices|] == choices;
  }

  lemma WordOfLastEight(choices: seq<Nibble>, word: nat)
    requires |choices| >= 8 && word == Value(choices) % 0x1_0000_0000
    ensures word == Value(choices[|choices| - 8..])
  {
    PowersOf16();
    SplitValue(choices, |choices| - 8);
  }

  lemma ShiftWord(x: nat, word: nat, choice: Nibble)
    requires word == x % 0x1_0000_0000
    ensures (word * 16 + choice) % 0x1_0000_0000 == (16 * x + choice) % 0x1_0000_0000
  {
    var q := x / 0x1_0000_0000;
    assert 16 * x + choice == (word * 16 + choice) + 0x1_0000_0000 * (16 * q);
    AddMultiple32(word * 16 + choice, 16 * q);
  }

  lemma AddMultiple32(x: nat, q: nat)
    ensures (x + 0x1_0000_0000 * q) % 0x1_0000_0000 == x % 0x1_0000_0000
  {
  }

  lemma RunGrows(cb: Codebook, target: seq<real>, choices: seq<Nibble>, choice: Nibble)
    requires |target| == 256 && IsRun(cb, target, choices)
    requires IsBest(cb, target, StateAfter(choices), |choices| % 256, choice)
    ensures IsRun(cb, target, choices + [choice])
  {
    hide IsBest;
    OneMoreChoice(choices, choice);
    assert choices[..|choices|] == choices;
  }

  /** What the words written so far in the last sweep hold. */
  ghost predicate Emitted(words: seq<nat>, choices: seq<Nibble>, i: nat)
    requires |words| == 32 && i <= 256 && |choices| == 512 + i
  {
    forall w :: 0 <= w < i / 8 ==> words[w] == Value(choices[512 + 8 * w..512 + 8 * w + 8])
  }

  /** The words hold the last sweep of a run of three; the run is the only one there is (`RunIsUnique`). */
  ghost predicate IsEncoding(cb: Codebook, target: seq<real>, words: seq<nat>)
    requires |target| == 256
  {
    exists choices: seq<Nibble> :: |choices| == 768 && IsRun(cb, target, choices) && words == Pack(choices[512..])
  }

  lemma EncodingIsUnique(cb: Codebook, target: seq<real>, a: seq<nat>, b: seq<nat>)
    requires |target| == 256 && IsEncoding(cb, target, a) && IsEncoding(cb, target, b)
    ensures a == b
  {
    hide IsRun, Pack;
    var x: seq<Nibble> :| |x| == 768 && IsRun(cb, target, x) && a == Pack(x[512..]);
    var y: seq<Nibble> :| |y| == 768 && IsRun(cb, target, y) && b == Pack(y[512..]);
    RunIsUnique(cb, target, x, y);
  }

  /**
   The three sweeps over one tile. The choices are the run that the two-step rule determines, and the
   32 words are exactly the 256 choices of the last sweep, in order.
   */
  method Encode(cb: Codebook, target: seq<real>) returns (words: seq<nat>, ghost choices: seq<Nibble>)
    requires |target| == 256
    ensures |choices| == 768 && IsRun(cb, target, choices)
    ensures words == Pack(choices[512..]) && IsEncoding(cb, target, words)
  {
    hide IsBest, StateAfter, Value, IsRun;
    EmptyRun(cb, target);
    words := seq(32, _ => 0);
    choices := [];
    var state: nat, word: nat := 0, 0;
    for sweep := 0 to 3
      invariant |choices| == sweep * 256 && IsRun(cb, target, choices)
      invariant state == StateAfter(choices) && word == Value(choices) % 0x1_0000_0000
      invariant |words| == 32 && (sweep == 3 ==> Emitted(words, choices, 256))
    {
      for i := 0 to 256
        invariant |choices| == sweep * 256 + i && IsRun(cb, target, choices)
        invariant state == StateAfter(choices) && word == Value(choices) % 0x1_0000_0000
        invariant |words| == 32 && (sweep == 2 ==> Emitted(words, choices, i))
      {
        var choice := Choose(cb, target, state, i);
        RunGrows(cb, target, choices, choice);
        OneMoreChoice(choices, choice);
        ShiftWord(Value(choices), word, choice);
        state := Next(state, choice);
        word := (word * 16 + choice) % 0x1_0000_0000;
        ghost var before := choices;
        choices := choices + [choice];
        if sweep == 2 && i % 8 == 7 {
          WordOfLastEight(choices, word);
          words := words[i / 8 := word];
        }
        if sweep == 2 {
          StillEmitted(words, before, choices, i);
        }
      }
    }
    PackEmitted(words, choices);
  }

  lemma EmptyRun(cb: Codebook, target: seq<real>)
    requires |target| == 256
    ensures IsRun(cb, target, []) && StateAfter([]) == 0 && Value([]) == 0
  {
  }

  lemma StillEmitted(words: seq<nat>, before: seq<Nibble>, choices: seq<Nibble>, i: nat)
    requires |words| == 32 && i < 256 && |before| == 512 + i && |choices| == |before| + 1 && choices[..|before|] == before
    requires forall w :: 0 <= w < i / 8 ==> words[w] == Value(before[512 + 8 * w..512 + 8 * w + 8])
    requires i % 8 == 7 ==> words[i / 8] == Value(choices[|choices| - 8..])
    ensures Emitted(words, choices, i + 1)
  {
    hide Value;
    forall w | 0 <= w < (i + 1) / 8
      ensures words[w] == Value(choices[512 + 8 * w..512 + 8 * w + 8])
    {
      if w < i / 8 {
        assert choices[512 + 8 * w..512 + 8 * w + 8] == before[512 + 8 * w..512 + 8 * w + 8];
      } else {
        assert choices[512 + 8 * w..512 + 8 * w + 8] == choices[|choices| - 8..];
      }
    }
  }

  lemma PackEmitted(words: seq<nat>, choices: seq<Nibble>)
    requires |words| == 32 && |choices| == 768 && Emitted(words, choices, 256)
    ensures words == Pack(choices[512..])
  {
    hide Value;
    var last := choices[512..];
    forall w | 0 <= w < 32
      ensures words[w] == Word(last, w)
    {
      assert last[8 * w..8 * w + 8] == choices[512 + 8 * w..512 + 8 * w + 8];
    }
  }

  /** One tile of the dispatch: gather, encode, and store 32 words at the tile's place. */
  method QuantizeTile(cb: Codebook, input: seq<real>, k: nat, n: nat, tile: nat, output: array<nat>)
    returns (ghost target: seq<real>, ghost choices: seq<Nibble>)
    requires n > 0 && n % 16 == 0 && k % 16 == 0 && tile < k / 16 * (n / 16) && |input| == k * n
    requires output.Length == k / 16 * (n / 16) * 32
    modifies output
    ensures Gathers(target, input, k, n, tile)
    ensures |choices| == 768 && IsRun(cb, target, choices)
    ensures tile * 32 + 32 <= output.Length && output[tile * 32..tile * 32 + 32] == Pack(choices[512..])
    ensures forall j :: 0 <= j < output.Length && !(tile * 32 <= j < tile * 32 + 32) ==> output[j] == old(output[j])
  {
    hide Gathers, IsRun, Pack;
    var gathered := FillTarget(input, k, n, tile);
    target := gathered[..];
    var words;
    words, choices := Encode(cb, gathered[..]);
    for w := 0 to 32
      invariant forall j :: 0 <= j < w ==> output[tile * 32 + j] == words[j]
      invariant forall j :: 0 <= j < output.Length && !(tile * 32 <= j < tile * 32 + 32) ==> output[j] == old(output[j])
    {
      output[tile * 32 + w] := words[w];
    }
  }

  /** The 32 words of a tile are the last sweep of the run on that tile's entries of the matrix. */
  ghost predicate TileEncoded(cb: Codebook, input: seq<real>, k: nat, n: nat, tile: nat, words: seq<nat>) {
    exists target: seq<real> :: Gathers(target, input, k, n, tile) && IsEncoding(cb, target, words)
  }

  /** The whole dispatch, one SIMD group a tile: every tile's words are its own encoding. */
  method QuantizeMatrix(cb: Codebook, input: seq<real>, k: nat, n: nat, output: array<nat>)
    requires n > 0 && n % 16 == 0 && k % 16 == 0 && |input| == k * n
    requires output.Length == k / 16 * (n / 16) * 32
    modifies output
    ensures forall tile: nat :: tile < k / 16 * (n / 16) ==>
              tile * 32 + 32 <= output.Length && TileEncoded(cb, input, k, n, tile, output[tile * 32..tile * 32 + 32])
  {
    var tiles := k / 16 * (n / 16);
    hide Gathers, IsRun, Pack, IsEncoding, TileEncoded;
    for tile := 0 to tiles
      invariant forall t: nat :: t < tile ==>
                  t * 32 + 32 <= output.Length && TileEncoded(cb, input, k, n, t, output[t * 32..t * 32 + 32])
    {
      ghost var before := output[..];
      ghost var target, choices := QuantizeTile(cb, input, k, n, tile, output);
      TileIsEncoded(cb, input, k, n, tile, target, choices, output[tile * 32..tile * 32 + 32]);
      forall t: nat | t < tile
        ensures output[t * 32..t * 32 + 32] == before[t * 32..t * 32 + 32]
      {
      }
    }
  }

  lemma TileIsEncoded(cb: Codebook, input: seq<real>, k: nat, n: nat, tile: nat, target: seq<real>,
                      choices: seq<Nibble>, words: seq<nat>)
    requires Gathers(target, input, k, n, tile) && |choices| == 768 && IsRun(cb, target, choices)
    requires words == Pack(choices[512..])
    ensures TileEncoded(cb, input, k, n, tile, words)
  {
    hide IsRun, Pack;
    assert |target| == 256;
    hide Gathers;
    assert IsEncoding(cb, target, words);
  }

  // ---------------------------------------------------------------------------------------
  // What a decoder sees
  // ---------------------------------------------------------------------------------------

  lemma LateWindow(choices: seq<Nibble>, position: nat)
    requires |choices| == 768 && 3 <= position < 256
    ensures Ring(choices[512..], position) == choices[512 + position - 3..512 + position + 1]
  {
  }

  lemma EarlyWindow(choices: seq<Nibble>, position: nat)
    requires |choices| == 768 && position < 3
    ensures Ring(choices[512..], position) == choices[765 + position..768] + choices[512..512 + position + 1]
  {
  }

  lemma EncodedState(choices: seq<Nibble>, position: nat)
    requires |choices| == 768 && position < 256
    ensures StateAfter(choices[..512 + position + 1]) == Value(choices[512 + position - 3..512 + position + 1])
  {
    var t := 512 + position + 1;
    StateIsWindow(choices[..t]);
    assert choices[..t][t - 4..] == choices[t - 4..t];
  }

  /** From the fourth position on, the decoder reads the very state whose error the encoder scored. */
  lemma DecoderSeesScoredState(choices: seq<Nibble>, position: nat)
    requires |choices| == 768 && 3 <= position < 256
    ensures ReadWindow(Pack(choices[512..]), position) == StateAfter(choices[..512 + position + 1])
  {
    WindowOfPacked(choices[512..], position);
    LateWindow(choices, position);
    EncodedState(choices, position);
  }

  lemma {:induction false} EqualValues(x: seq<Nibble>, y: seq<Nibble>)
    requires |x| == |y| && Value(x) == Value(y)
    ensures x == y
  {
    if x != [] {
      var n := |x| - 1;
      EqualValues(x[..n], y[..n]);
      assert x == x[..n] + [x[n]] && y == y[..n] + [y[n]];
    }
  }

  /**
   The ring closes, so that all 256 windows are the scored states, exactly when the last three choices
   of the last two sweeps agree.
   */
  lemma RingCloses(choices: seq<Nibble>)
    requires |choices| == 768
    ensures (forall position: nat :: position < 256 ==>
               ReadWindow(Pack(choices[512..]), position) == StateAfter(choices[..512 + position + 1]))
            <==> choices[509..512] == choices[765..768]
  {
    hide ReadWindow, Pack, StateAfter, Value, Ring;
    WindowOfPacked(choices[512..], 0);
    EarlyWindow(choices, 0);
    EncodedState(choices, 0);
    if ReadWindow(Pack(choices[512..]), 0) == StateAfter(choices[..513]) {
      EqualValues(choices[765..768] + choices[512..513], choices[509..513]);
      assert choices[509..513][..3] == choices[509..512];
      assert (choices[765..768] + choices[512..513])[..3] == choices[765..768];
    }
    if choices[509..512] == choices[765..768] {
      forall position: nat | position < 256
        ensures ReadWindow(Pack(choices[512..]), position) == StateAfter(choices[..512 + position + 1])
      {
        ClosedWindow(choices, position);
      }
    }
  }

  lemma ClosedWindow(choices: seq<Nibble>, position: nat)
    requires |choices| == 768 && position < 256 && choices[509..512] == choices[765..768]
    ensures ReadWindow(Pack(choices[512..]), position) == StateAfter(choices[..512 + position + 1])
  {
    hide ReadWindow, Pack, StateAfter, Value, Ring;
    if position >= 3 {
      DecoderSeesScoredState(choices, position);
    } else {
      WindowOfPacked(choices[512..], position);
      EarlyWindow(choices, position);
      EncodedState(choices, position);
      var x, y := choices[765 + position..768], choices[512..512 + position + 1];
      assert x == choices[765..768][position..] == choices[509..512][position..] == choices[509 + position..512];
      assert x + y == choices[509 + position..512 + position + 1];
    }
  }

  // ---------------------------------------------------------------------------------------
  // A tile whose ring stays open
  // ---------------------------------------------------------------------------------------

  /** A codebook that wants every nibble to be the one before it plus 1, modulo 3. */
  function Turning(state: int): real {
    if state % 16 == (state / 16 % 16 + 1) % 3 then 0.0 else 1.0
  }

  function Zeros(): (target: seq<real>)
    ensures |target| == 256 && forall i :: 0 <= i < 256 ==> target[i] == 0.0
  {
    seq(256, _ => 0.0)
  }

  function Turns(): (choices: seq<Nibble>)
    ensures |choices| == 768 && forall t :: 0 <= t < 768 ==> choices[t] == (t + 1) % 3
  {
    seq(768, t requires 0 <= t < 768 => (t + 1) % 3)
  }

  lemma LastNibbles(state: nat, n: Nibble)
    ensures Next(state, n) % 16 == n && Next(state, n) / 16 % 16 == state % 16
  {
    var l, g, h := state % 16, state / 16 / 256, state / 16 % 256;
    assert state == 16 * (256 * g + h) + l;
    NextOfDigits(state, g, h, l, n);
    hide Next;
    TwoNibbles(h, l, n);
  }

  lemma NextOfDigits(state: nat, g: nat, h: nat, l: nat, n: Nibble)
    requires state == 16 * (256 * g + h) + l && h < 256 && l < 16
    ensures Next(state, n) == 256 * h + 16 * l + n
  {
    WholeTurns(256 * h + 16 * l + n, g);
    assert state * 16 + n == 65536 * g + (256 * h + 16 * l + n);
  }

  lemma TwoNibbles(h: nat, l: nat, n: nat)
    requires l < 16 && n < 16
    ensures (256 * h + 16 * l + n) % 16 == n && (256 * h + 16 * l + n) / 16 % 16 == l
  {
    assert (256 * h + 16 * l + n) / 16 == 16 * h + l;
  }

  /** The error of a choice is 0 on the turn and 1 off it. */
  lemma TurnError(state: nat, n: Nibble)
    ensures Turning(Next(state, n)) == if n == (state % 16 + 1) % 3 then 0.0 else 1.0
  {
    LastNibbles(state, n);
  }

  lemma TurnCosts(state: nat, i: nat, n: Nibble, a: Nibble)
    requires i < 256
    ensures var on := (state % 16 + 1) % 3;
            var cost := TwoStepError(Turning, Zeros(), state, i, n, a);
            cost >= 0.0 && (n != on ==> cost >= 1.0) && (n == on && a == (on + 1) % 3 ==> cost == 0.0)
  {
    LastNibbles(state, n);
    TurnError(state, n);
    TurnError(Next(state, n), a);
    hide Turning, Next;
  }

  lemma TurnIsBest(state: nat, i: nat)
    requires i < 256
    ensures IsBest(Turning, Zeros(), state, i, (state % 16 + 1) % 3)
  {
    hide TwoStepError;
    var on: Nibble := (state % 16 + 1) % 3;
    var look: Nibble := (on + 1) % 3;
    TurnCosts(state, i, on, look);
    forall n: Nibble, a: Nibble
      ensures TwoStepError(Turning, Zeros(), state, i, on, look) <= TwoStepError(Turning, Zeros(), state, i, n, a)
      ensures n < on ==> TwoStepError(Turning, Zeros(), state, i, on, look) < TwoStepError(Turning, Zeros(), state, i, n, a)
    {
      TurnCosts(state, i, n, a);
    }
  }

  lemma LastOfState(choices: seq<Nibble>)
    ensures StateAfter(choices) % 16 == if choices == [] then 0 else choices[|choices| - 1]
  {
    if choices != [] {
      LastNibbles(StateAfter(choices[..|choices| - 1]), choices[|choices| - 1]);
    }
  }

  /**
   The whole run of this tile turns, and 256 is not a multiple of 3: the last sweep ends on other choices
   than the one before, and the first window the decoder reads is not the state that was scored.
   */
  lemma RingStaysOpen()
    ensures IsRun(Turning, Zeros(), Turns())
    ensures Turns()[509..512] != Turns()[765..768]
    ensures !(forall position: nat :: position < 256 ==>
                ReadWindow(Pack(Turns()[512..]), position) == StateAfter(Turns()[..512 + position + 1]))
  {
    var choices := Turns();
    hide IsBest, StateAfter, ReadWindow, Pack, Turning, Zeros, Turns;
    forall t | 0 <= t < 768
      ensures IsBest(Turning, Zeros(), StateAfter(choices[..t]), t % 256, choices[t])
    {
      LastOfState(choices[..t]);
      TurnIsBest(StateAfter(choices[..t]), t % 256);
      assert StateAfter(choices[..t]) % 16 == t % 3;
    }
    assert choices[509..512][0] == 0 && choices[765..768][0] == 1;
    RingCloses(choices);
  }
}
