/**
 The roofline cost model of the projection tiles (bench/analyze_projection_cost_model.py), in exact
 arithmetic and in seconds.
 */
module CostModel {
  import opened Results

  const CORES := 16
  const BANDWIDTH: real := 273000000000.0     // bytes a second
  const FLOPS: real := 18700000000000.0       // a second
  const DISPATCH: real := 0.0000065
  const MAX_REGISTERS := 64
  const NOMINAL_REGISTERS: real := 32.0
  const SATURATION_WAVES: real := 2.0
  const MAX_THREADS := 1024
  const BLOCK_ELEMENTS := 32
  const BLOCK_BYTES := 18

  datatype ModelError = UnsupportedTile | IllegalShape | TooManyThreads | TooManyRegisters | NotPositive

  /** A registered tile; `rank` is the place of its name among the three names in alphabetical order. */
  datatype Tile = Tile(columns: nat, outputs: nat, reuse: nat, threads: nat, rank: nat)

  /** llmopt_q4_0_linear_f16_x4, _x8 and _x16. */
  function RegisteredTile(i: nat): Tile
    requires i < 3
  {
    if i == 0 then Tile(4, 32, 4, 256, 1) else if i == 1 then Tile(8, 64, 8, 256, 2) else Tile(16, 128, 16, 256, 0)
  }

  datatype Candidate = Candidate(
    tile: Tile, workgroups: nat, registers: nat, bytes: nat, compute: real, memory: real, total: real)

  // ---------------------------------------------------------------------------------------
  // One tile
  // ---------------------------------------------------------------------------------------

  function CeilDiv(value: int, divisor: int): Result<int, ModelError> {
    if value <= 0 || divisor <= 0 then Err(NotPositive) else Ok((value + divisor - 1) / divisor)
  }

  /** The least number of groups of `divisor` that hold `value`. */
  function Groups(value: nat, divisor: nat): (g: nat)
    requires value > 0 && divisor > 0
    ensures CeilDiv(value, divisor) == Ok(g) && g > 0
    ensures (g - 1) * divisor < value <= g * divisor
  {
    var g := (value + divisor - 1) / divisor;
    assert value + divisor - 1 == g * divisor + (value + divisor - 1) % divisor;
    assert g <= 0 ==> g * divisor <= 0;
    assert (g - 1) * divisor == g * divisor - divisor;
    g
  }

  function Divide(a: real, b: real): real
    requires b > 0.0
  {
    a / b
  }

  function MinReal(a: real, b: real): real {
    if a <= b then a else b
  }

  function MaxReal(a: real, b: real): real {
    if a >= b then a else b
  }

  function Bytes(n: nat, k: nat, t: Tile): nat
    requires n > 0 && t.reuse > 0
  {
    (k / BLOCK_ELEMENTS) * n * BLOCK_BYTES + 2 * k * Groups(n, t.reuse) + 2 * n
  }

  function Utilization(workgroups: nat): (u: real)
    requires workgroups > 0
    ensures 1.0 <= 16.0 * u <= 16.0
  {
    (if workgroups < CORES then workgroups else CORES) as real / CORES as real
  }

  /** How much of the bandwidth the grid reaches. */
  function BandwidthShare(t: Tile, workgroups: nat): (b: real)
    requires workgroups > 0
    ensures b <= 1.0
  {
    var occupancy := MinReal(1.0, Divide(NOMINAL_REGISTERS, MaxReal(1.0, (3 * t.reuse + 8) as real)));
    var waves := workgroups as real / CORES as real;
    if t.reuse >= 4 && workgroups >= CORES then MinReal(1.0, waves / SATURATION_WAVES)
    else if workgroups >= CORES then
      MinReal(1.0, Divide(waves, Divide(SATURATION_WAVES, MaxReal(0.000001, occupancy))))
    else 1.0
  }

  function ComputeSeconds(n: nat, k: nat, workgroups: nat): real
    requires workgroups > 0
  {
    Divide((2 * n * k) as real / FLOPS, Utilization(workgroups))
  }

  function MemorySeconds(n: nat, k: nat, t: Tile, workgroups: nat): real
    requires n > 0 && t.reuse > 0 && workgroups > 0
  {
    Divide(Bytes(n, k, t) as real, BANDWIDTH * MaxReal(0.001, BandwidthShare(t, workgroups)))
  }

  /** `_predict_candidate`. */
  function Predict(n: int, k: int, columns: nat): Result<Candidate, ModelError> {
    if columns !in {4, 8, 16} then Err(UnsupportedTile)
    else if n <= 0 || k <= 0 || k % BLOCK_ELEMENTS != 0 then Err(IllegalShape)
    else
      var t := RegisteredTile(if columns == 4 then 0 else if columns == 8 then 1 else 2);
      var workgroups := Groups(n, t.outputs);
      var registers := 3 * t.reuse + 8;
      if t.threads > MAX_THREADS then Err(TooManyThreads)
      else if registers > MAX_REGISTERS then Err(TooManyRegisters)
      else
        var compute, memory := ComputeSeconds(n, k, workgroups), MemorySeconds(n, k, t, workgroups);
        Ok(Candidate(t, workgroups, registers, Bytes(n, k, t), compute, memory, MaxReal(compute, memory) + DISPATCH))
  }

  // ---------------------------------------------------------------------------------------
  // Every legal candidate is bound by memory
  // ---------------------------------------------------------------------------------------

  lemma DivideLess(a: real, b: real, c: real)
    requires b > 0.0
    ensures Divide(a, b) < c <==> a < c * b
    ensures Divide(a, b) <= c <==> a <= c * b
  {
    var q := a / b;
    assert q * b == a;
    assert (c - q) * b == c * b - a;
    if q < c {
      assert (c - q) * b > 0.0;
    } else if q > c {
      assert (c - q) * b < 0.0;
    }
  }

  /** Dividing by at most `b` gives at least as much. */
  lemma DivideMore(a: real, b: real, c: real)
    requires a >= 0.0 && 0.0 < b <= c
    ensures Divide(a, c) <= Divide(a, b)
  {
    var q := a / b;
    assert q * b == a && q >= 0.0;
    DivideLess(a, c, q);
    assert q * (c - b) >= 0.0;
  }

  lemma ComputeAtMost(n: nat, k: nat, workgroups: nat)
    requires workgroups > 0
    ensures ComputeSeconds(n, k, workgroups) <= 16.0 * ((2 * n * k) as real / FLOPS)
  {
    var x, u := (2 * n * k) as real / FLOPS, Utilization(workgroups);
    assert 2 * n * k >= 0;
    assert x >= 0.0;
    DivideLess(x, u, 16.0 * x);
    Scaled(x, u);
  }

  lemma Scaled(x: real, u: real)
    requires x >= 0.0 && 16.0 * u >= 1.0
    ensures x <= 16.0 * x * u
  {
    assert x * (16.0 * u - 1.0) >= 0.0;
  }

  lemma MemoryAtLeast(n: nat, k: nat, t: Tile, workgroups: nat)
    requires n > 0 && t.reuse > 0 && workgroups > 0
    ensures Bytes(n, k, t) as real / BANDWIDTH <= MemorySeconds(n, k, t, workgroups)
  {
    hide BandwidthShare, Bytes;
    var share := MaxReal(0.001, BandwidthShare(t, workgroups));
    DivideMore(Bytes(n, k, t) as real, BANDWIDTH * share, BANDWIDTH);
  }

  lemma WeightBytes(n: nat, b: nat, t: Tile)
    requires n > 0 && t.reuse > 0
    ensures Bytes(n, 32 * b, t) >= 18 * (b * n) && 2 * n * (32 * b) == 64 * (b * n)
  {
    hide Groups;
    assert 2 * (32 * b) * Groups(n, t.reuse) >= 0;
    assert b * n * 18 == 18 * (b * n);
    assert 2 * n * (32 * b) == 64 * (b * n);
  }

  /** The roofline is the memory time for every legal shape and every tile. */
  lemma AlwaysMemoryBound(n: int, k: int, columns: nat)
    requires Predict(n, k, columns).Ok?
    ensures var c := Predict(n, k, columns).value; c.compute < c.memory && c.total == c.memory + DISPATCH
  {
    hide *;
    var c := Predict(n, k, columns).value;
    var b := CandidateTimes(n, k, columns);
    ComputeAtMost(n, k, c.workgroups);
    MemoryAtLeast(n, k, c.tile, c.workgroups);
    WeightBytes(n, b, c.tile);
    TrafficDominates(b * n, Bytes(n, k, c.tile));
    Larger(c.compute, c.memory);
  }

  /** What the total of a candidate is made of, with the blocks of one column. */
  lemma CandidateTimes(n: int, k: int, columns: nat) returns (b: nat)
    requires Predict(n, k, columns).Ok?
    ensures n > 0 && k == 32 * b && b * n > 0
    ensures var c := Predict(n, k, columns).value;
            && c.workgroups > 0 && c.tile.reuse > 0
            && c.compute == ComputeSeconds(n, k, c.workgroups) && c.memory == MemorySeconds(n, k, c.tile, c.workgroups)
            && c.total == MaxReal(c.compute, c.memory) + DISPATCH
  {
    hide ComputeSeconds, MemorySeconds, Bytes, Groups, MaxReal;
    b := k / 32;
    assert b > 0 && n > 0;
  }

  lemma Larger(a: real, b: real)
    ensures a < b ==> MaxReal(a, b) == b
  {
  }

  /** A block of weights takes longer to load than to multiply, even at a sixteenth of the arithmetic rate. */
  lemma TrafficDominates(blocks: nat, bytes: nat)
    requires blocks > 0 && 18 * blocks <= bytes
    ensures 16.0 * ((64 * blocks) as real / FLOPS) < bytes as real / BANDWIDTH
  {
    assert (18 * blocks) as real / BANDWIDTH <= bytes as real / BANDWIDTH;
  }

  /** No registered tile is ever refused for its threads or registers. */
  lemma PredictAccepts(n: int, k: int, columns: nat)
    ensures Predict(n, k, columns).Ok? <==> columns in {4, 8, 16} && n > 0 && k > 0 && k % 32 == 0
    ensures Predict(n, k, columns).Ok? ==> Predict(n, k, columns).value.tile.columns == columns
  {
    hide ComputeSeconds, MemorySeconds, Bytes, Groups;
  }

  // ---------------------------------------------------------------------------------------
  // Sorting candidates
  // ---------------------------------------------------------------------------------------

  predicate Before(a: Candidate, b: Candidate) {
    a.total < b.total || (a.total == b.total && a.tile.rank <= b.tile.rank)
  }

  ghost predicate IsSorted(s: seq<Candidate>) {
    forall i, j :: 0 <= i < j < |s| ==> Before(s[i], s[j])
  }

  function Insert(c: Candidate, s: seq<Candidate>): (r: seq<Candidate>)
    ensures multiset(r) == multiset(s) + multiset{c}
  {
    if s == [] then [c]
    else if Before(c, s[0]) then [c] + s
    else
      assert s == [s[0]] + s[1..];
      [s[0]] + Insert(c, s[1..])
  }

  /** Sorting by cost, then by name. */
  function Sorted(s: seq<Candidate>): (r: seq<Candidate>)
    ensures multiset(r) == multiset(s)
  {
    if s == [] then []
    else
      assert s == [s[0]] + s[1..];
      Insert(s[0], Sorted(s[1..]))
  }

  /** Whatever is before every element stays before them when one more is inserted. */
  lemma {:induction false} InsertAfter(c: Candidate, s: seq<Candidate>, head: Candidate)
    requires Before(head, c) && forall i :: 0 <= i < |s| ==> Before(head, s[i])
    ensures forall i :: 0 <= i < |Insert(c, s)| ==> Before(head, Insert(c, s)[i])
  {
    hide Before;
    if s != [] && !Before(c, s[0]) {
      InsertAfter(c, s[1..], head);
    }
  }

  lemma {:induction false} InsertKeepsOrder(c: Candidate, s: seq<Candidate>)
    requires IsSorted(s)
    ensures IsSorted(Insert(c, s))
  {
    if s != [] {
      if Before(c, s[0]) {
        assert forall i :: 0 <= i < |s| ==> Before(c, s[i]);
      } else {
        assert forall i :: 0 <= i < |s| - 1 ==> s[1..][i] == s[i + 1];
        InsertKeepsOrder(c, s[1..]);
        InsertAfter(c, s[1..], s[0]);
      }
    }
  }

  lemma {:induction false} SortedIsSorted(s: seq<Candidate>)
    ensures IsSorted(Sorted(s))
  {
    if s != [] {
      SortedIsSorted(s[1..]);
      InsertKeepsOrder(s[0], Sorted(s[1..]));
    }
  }

  /** The candidates of the tiles from number `from` on whose width divides n. */
  function Predictions(n: int, k: int, from: nat): Result<seq<Candidate>, ModelError>
    requires from <= 3
    decreases 3 - from
  {
    if from == 3 then Ok([])
    else if n % RegisteredTile(from).columns != 0 then Predictions(n, k, from + 1)
    else
      var c :- Predict(n, k, RegisteredTile(from).columns);
      var rest :- Predictions(n, k, from + 1);
      Ok([c] + rest)
  }

  /** `_predict_shape`. */
  function PredictShape(n: int, k: int): Result<seq<Candidate>, ModelError> {
    var candidates :- Predictions(n, k, 0);
    Ok(Sorted(candidates))
  }
}
