/** Which tiles the cost model proposes for a shape, and in which order. */
module CostOrder {
  import opened Results
  import opened CostModel

  // ---------------------------------------------------------------------------------------
  // The tiles proposed
  // ---------------------------------------------------------------------------------------

  predicate Legal(n: int, k: int) {
    n > 0 && k > 0 && k % 32 == 0
  }

  /** The prediction for one width, if it divides n. */
  function IfDivides(n: int, k: int, columns: nat): seq<Candidate>
    requires Legal(n, k) && columns in {4, 8, 16}
  {
    PredictAccepts(n, k, columns);
    if n % columns == 0 then [Predict(n, k, columns).value] else []
  }

  /** The predictions of the tiles that divide n, narrowest first. */
  function Dividing(n: int, k: int): seq<Candidate>
    requires Legal(n, k)
  {
    IfDivides(n, k, 4) + (IfDivides(n, k, 8) + IfDivides(n, k, 16))
  }

  lemma PredictionsFrom(n: int, k: int, from: nat)
    requires Legal(n, k) && from < 3 && Predictions(n, k, from + 1).Ok?
    ensures Predictions(n, k, from)
         == Ok(IfDivides(n, k, RegisteredTile(from).columns) + Predictions(n, k, from + 1).value)
  {
    PredictAccepts(n, k, RegisteredTile(from).columns);
    hide Predict;
    assert [] + Predictions(n, k, from + 1).value == Predictions(n, k, from + 1).value;
  }

  lemma PredictionsAre(n: int, k: int)
    requires Legal(n, k)
    ensures Predictions(n, k, 0) == Ok(Dividing(n, k))
  {
    assert Predictions(n, k, 3) == Ok([]);
    hide Predictions, IfDivides;
    PredictionsFrom(n, k, 2);
    PredictionsFrom(n, k, 1);
    PredictionsFrom(n, k, 0);
    assert IfDivides(n, k, 16) + [] == IfDivides(n, k, 16);
  }

  /** For a legal shape: the tiles that divide n, each once with its own prediction, sorted by cost and name. */
  lemma ShapeIsSortedPermutation(n: int, k: int)
    requires Legal(n, k)
    ensures PredictShape(n, k).Ok? && IsSorted(PredictShape(n, k).value)
    ensures multiset(PredictShape(n, k).value) == multiset(Dividing(n, k))
  {
    PredictionsAre(n, k);
    SortedIsSorted(Dividing(n, k));
    hide Predictions, Sorted, Dividing, IsSorted;
  }

  /** An illegal shape is refused exactly when 4 divides n; otherwise no tile is even tried. */
  lemma IllegalShapes(n: int, k: int)
    requires !Legal(n, k)
    ensures PredictShape(n, k) == if n % 4 == 0 then Err(IllegalShape) else Ok([])
  {
    NothingDivides(n, k);
    if n % 4 == 0 {
      assert Predict(n, k, 4) == Err(IllegalShape);
      hide Predict;
      assert Predictions(n, k, 0) == Err(IllegalShape);
    }
  }

  lemma NothingDivides(n: int, k: int)
    ensures n % 4 != 0 ==> PredictShape(n, k) == Ok([])
  {
    assert Predictions(n, k, 3) == Ok([]);
    hide Predict, Predictions;
    if n % 4 != 0 {
      assert n % 8 != 0 && n % 16 != 0;
      Skipped(n, k, 2);
      Skipped(n, k, 1);
      Skipped(n, k, 0);
    }
  }

  lemma Skipped(n: int, k: int, from: nat)
    requires from < 3 && n % RegisteredTile(from).columns != 0
    ensures Predictions(n, k, from) == Predictions(n, k, from + 1)
  {
    hide Predict;
  }

  // ---------------------------------------------------------------------------------------
  // The costs of wide shapes, in units of a = n / 16 and b = k / 32
  // ---------------------------------------------------------------------------------------

  lemma ExactGroups(value: nat, divisor: nat, g: nat)
    requires value > 0 && divisor > 0 && value == g * divisor
    ensures Groups(value, divisor) == g
  {
    hide Groups;
    var h := Groups(value, divisor);
    OneLess(h, divisor);
    if h < g {
      TimesLess(h, g, divisor);
    } else if g < h {
      TimesLess(g, h, divisor);
    }
  }

  lemma TimesLess(x: nat, y: nat, d: nat)
    requires x < y
    ensures x * d + d <= y * d
  {
    assert (x + 1) * d <= y * d;
  }

  lemma OneLess(x: nat, d: nat)
    ensures (x - 1) * d == x * d - d
  {
  }

  lemma BytesOf(a: nat, b: nat, t: Tile, g: nat)
    requires a > 0 && b > 0 && t.reuse > 0 && 16 * a == g * t.reuse
    ensures Bytes(16 * a, 32 * b, t) == 288 * (a * b) + 64 * (b * g) + 32 * a
  {
    ExactGroups(16 * a, t.reuse, g);
    hide Groups;
    assert (32 * b) / 32 == b;
    assert b * (16 * a) * 18 == 288 * (a * b);
    assert 2 * (32 * b) * g == 64 * (b * g);
  }

  lemma TileBytes(a: nat, b: nat)
    requires a > 0 && b > 0
    ensures Bytes(16 * a, 32 * b, RegisteredTile(2)) == 352 * (a * b) + 32 * a
    ensures Bytes(16 * a, 32 * b, RegisteredTile(1)) == 416 * (a * b) + 32 * a
    ensures Bytes(16 * a, 32 * b, RegisteredTile(0)) == 544 * (a * b) + 32 * a
  {
    hide Bytes;
    BytesOf(a, b, RegisteredTile(2), a);
    BytesOf(a, b, RegisteredTile(1), 2 * a);
    BytesOf(a, b, RegisteredTile(0), 4 * a);
    Multiples(a, b);
  }

  lemma Multiples(a: nat, b: nat)
    ensures b * a == a * b && b * (2 * a) == 2 * (a * b) && b * (4 * a) == 4 * (a * b)
  {
  }

  /** The bandwidth share of the registered tiles: from 16 to 31 workgroups it grows, otherwise it is all. */
  function ShareFor(workgroups: nat): (share: real)
    ensures 0.5 <= share <= 1.0
  {
    if 16 <= workgroups < 32 then workgroups as real / 32.0 else 1.0
  }

  lemma ShareOf(t: Tile, workgroups: nat)
    requires t.reuse >= 4 && workgroups > 0
    ensures BandwidthShare(t, workgroups) == ShareFor(workgroups)
  {
    hide Divide;
  }

  lemma MemoryOf(n: nat, k: nat, t: Tile, workgroups: nat)
    requires n > 0 && t.reuse >= 4 && workgroups > 0
    ensures BANDWIDTH * ShareFor(workgroups) > 0.0
    ensures MemorySeconds(n, k, t, workgroups) == Divide(Bytes(n, k, t) as real, BANDWIDTH * ShareFor(workgroups))
  {
    ShareOf(t, workgroups);
    hide Divide, Bytes, BandwidthShare, ShareFor;
  }

  function Share(x: real, share: real): real {
    x * share
  }

  /** Two costs at different shares, through the bytes. */
  lemma CompareShares(x: real, s: real, y: real, t: real)
    requires 0.0 < s && 0.0 < t
    ensures Share(BANDWIDTH, s) > 0.0 && Share(BANDWIDTH, t) > 0.0
    ensures Divide(x, Share(BANDWIDTH, s)) < Divide(y, Share(BANDWIDTH, t)) <==> Share(x, t) < Share(y, s)
  {
    var d, e := BANDWIDTH * s, BANDWIDTH * t;
    var q := Divide(y, e);
    assert q * e == y;
    DivideLess(x, d, q);
    hide Divide;
    assert (q * d) * t == (q * e) * s by {
      assert (q * (BANDWIDTH * s)) * t == (q * (BANDWIDTH * t)) * s;
    }
    SameSign(x, q * d, t);
  }

  lemma SameSign(x: real, y: real, t: real)
    requires t > 0.0
    ensures x < y <==> x * t < y * t
  {
    if x < y {
      assert (y - x) * t > 0.0;
    } else {
      assert (x - y) * t >= 0.0;
    }
  }

  /** The three predictions for a = n / 16 and b = k / 32, each with its total. */
  lemma TotalOf(a: nat, b: nat, i: nat, workgroups: nat, share: real)
    requires a > 0 && b > 0 && i < 3 && Groups(16 * a, RegisteredTile(i).outputs) == workgroups
    requires share == ShareFor(workgroups)
    ensures Predict(16 * a, 32 * b, RegisteredTile(i).columns).Ok? && Share(BANDWIDTH, share) > 0.0
    ensures var c := Predict(16 * a, 32 * b, RegisteredTile(i).columns).value;
            && c.tile == RegisteredTile(i)
            && c.total == Divide(Bytes(16 * a, 32 * b, RegisteredTile(i)) as real, Share(BANDWIDTH, share)) + DISPATCH
  {
    PredictAccepts(16 * a, 32 * b, RegisteredTile(i).columns);
    AlwaysMemoryBound(16 * a, 32 * b, RegisteredTile(i).columns);
    MemoryOf(16 * a, 32 * b, RegisteredTile(i), workgroups);
    hide Divide, Bytes, MemorySeconds, ComputeSeconds, ShareFor;
  }

  // ---------------------------------------------------------------------------------------
  // The order
  // ---------------------------------------------------------------------------------------

  function Columns(s: seq<Candidate>): (r: seq<nat>)
    ensures |r| == |s|
  {
    seq(|s|, i requires 0 <= i < |s| => s[i].tile.columns)
  }

  lemma AllThree(n: int, k: int)
    requires Legal(n, k) && n % 16 == 0
    ensures Predict(n, k, 4).Ok? && Predict(n, k, 8).Ok? && Predict(n, k, 16).Ok?
    ensures PredictShape(n, k)
         == Ok(Sorted([Predict(n, k, 4).value, Predict(n, k, 8).value, Predict(n, k, 16).value]))
  {
    hide Predict, Sorted, Predictions;
    PredictAccepts(n, k, 4);
    PredictAccepts(n, k, 8);
    PredictAccepts(n, k, 16);
    PredictionsAre(n, k);
    SixteenDivides(n);
    var a, b, c := Predict(n, k, 4).value, Predict(n, k, 8).value, Predict(n, k, 16).value;
    assert [a] + ([b] + [c]) == [a, b, c];
  }

  lemma SixteenDivides(n: int)
    requires n % 16 == 0
    ensures n % 8 == 0 && n % 4 == 0
  {
    var eighths, quarters := n / 8, n / 4;
    assert n == 8 * eighths + n % 8 && n == 4 * quarters + n % 4;
    assert n == 16 * (n / 16);
  }

  lemma InsertPast(c: Candidate, head: Candidate, rest: seq<Candidate>)
    requires head.total < c.total
    ensures Insert(c, [head] + rest) == [head] + Insert(c, rest)
  {
    assert ([head] + rest)[1..] == rest;
  }

  lemma InsertBefore(c: Candidate, head: Candidate, rest: seq<Candidate>)
    requires c.total < head.total
    ensures Insert(c, [head] + rest) == [c] + ([head] + rest)
  {
  }

  lemma SortedStep(c: Candidate, rest: seq<Candidate>)
    ensures Sorted([c] + rest) == Insert(c, Sorted(rest))
  {
    assert ([c] + rest)[1..] == rest;
  }

  lemma Ends(c: Candidate)
    ensures Sorted([]) == [] && Insert(c, []) == [c]
  {
  }

  lemma SortedThree(x: Candidate, y: Candidate, z: Candidate)
    ensures Sorted([x, y, z]) == Insert(x, Insert(y, [z]))
  {
    hide Sorted, Insert;
    assert [x, y, z] == [x] + ([y] + ([z] + []));
    SortedStep(x, [y] + ([z] + []));
    SortedStep(y, [z] + []);
    SortedStep(z, []);
    Ends(z);
  }

  lemma InsertSecond(c: Candidate, head: Candidate)
    ensures head.total < c.total ==> Insert(c, [head]) == [head, c]
    ensures c.total < head.total ==> Insert(c, [head]) == [c, head]
  {
    hide Insert;
    assert [head] == [head] + [];
    Ends(c);
    if head.total < c.total {
      InsertPast(c, head, []);
    } else if c.total < head.total {
      InsertBefore(c, head, []);
    }
  }

  lemma InsertThird(c: Candidate, first: Candidate, second: Candidate)
    requires first.total < c.total && second.total < c.total
    ensures Insert(c, [first, second]) == [first, second, c]
  {
    hide *;
    assert [first, second] == [first] + [second];
    InsertPast(c, first, [second]);
    InsertSecond(c, second);
    Joined(first, second, c);
  }

  lemma Joined(x: Candidate, y: Candidate, z: Candidate)
    ensures [x] + [y, z] == [x, y, z]
  {
  }

  lemma SortThree(x: Candidate, y: Candidate, z: Candidate)
    ensures z.total < y.total < x.total ==> Sorted([x, y, z]) == [z, y, x]
    ensures y.total < z.total < x.total ==> Sorted([x, y, z]) == [y, z, x]
  {
    hide Insert, Sorted;
    SortedThree(x, y, z);
    InsertSecond(y, z);
    if z.total < y.total < x.total {
      InsertThird(x, z, y);
    } else if y.total < z.total < x.total {
      InsertThird(x, y, z);
    }
  }

  /** A candidate's total from the bytes it moves and the share of the bandwidth its grid reaches. */
  predicate Costs(c: Candidate, bytes: real, share: real) {
    share > 0.0 && BANDWIDTH * share > 0.0 && c.total == Divide(bytes, Share(BANDWIDTH, share)) + DISPATCH
  }

  /** What each tile costs for a = n / 16 and b = k / 32. */
  lemma TileCosts(a: nat, b: nat)
    requires a > 0 && b > 0
    ensures var n, k := 16 * a, 32 * b;
            && Predict(n, k, 4).Ok? && Predict(n, k, 8).Ok? && Predict(n, k, 16).Ok?
            && Costs(Predict(n, k, 4).value, (544 * (a * b) + 32 * a) as real, ShareFor(Groups(n, 32)))
            && Costs(Predict(n, k, 8).value, (416 * (a * b) + 32 * a) as real, ShareFor(Groups(n, 64)))
            && Costs(Predict(n, k, 16).value, (352 * (a * b) + 32 * a) as real, ShareFor(Groups(n, 128)))
  {
    hide Predict, Bytes, Divide, Groups;
    TileBytes(a, b);
    TotalOf(a, b, 0, Groups(16 * a, 32), ShareFor(Groups(16 * a, 32)));
    TotalOf(a, b, 1, Groups(16 * a, 64), ShareFor(Groups(16 * a, 64)));
    TotalOf(a, b, 2, Groups(16 * a, 128), ShareFor(Groups(16 * a, 128)));
  }

  lemma Cheaper(c: Candidate, x: real, s: real, d: Candidate, y: real, t: real)
    requires Costs(c, x, s) && Costs(d, y, t) && Share(x, t) < Share(y, s)
    ensures c.total < d.total
  {
    hide Divide;
    CompareShares(x, s, y, t);
  }

  lemma WorkgroupCounts(a: nat)
    requires a > 0
    ensures Groups(16 * a, 32) == (a + 1) / 2 && Groups(16 * a, 64) == (a + 3) / 4 && Groups(16 * a, 128) == (a + 7) / 8
  {
  }

  /** Fewer bytes at a share of the bandwidth that is at least as large. */
  lemma FewerBytes(x: real, s: real, y: real, t: real)
    requires 0.0 < x < y && 0.0 < t <= s
    ensures Share(x, t) < Share(y, s)
  {
    assert (y - x) * t > 0.0 && y * (s - t) >= 0.0;
    assert y * s == y * (s - t) + y * t;
  }

  /**
   For every n divisible by 16 and every legal k the widest tile is proposed first exactly for n up to
   1920, where its grid has less than 16 workgroups, and above 3456, where it has at least 28; in between
   the tile of 8 columns costs less.
   */
  lemma WidestFirstExactly(n: int, k: int)
    requires Legal(n, k) && n % 16 == 0
    ensures PredictShape(n, k).Ok? && |PredictShape(n, k).value| == 3
    ensures Columns(PredictShape(n, k).value)[0] == 16 <==> n <= 1920 || n > 3456
    ensures 1920 < n <= 3456 ==> Predict(n, k, 8).Ok? && Predict(n, k, 16).Ok?
                                 && Predict(n, k, 8).value.total < Predict(n, k, 16).value.total
  {
    hide *;
    var a, b := n / 16, k / 32;
    Units(n, k, a, b);
    TileCosts(a, b);
    if n <= 1920 || n > 3456 {
      WidestIsLeast(a, b);
    } else {
      EightIsLess(a, b);
    }
    FirstIsLeast(n, k);
  }

  lemma Units(n: int, k: int, a: int, b: int)
    requires Legal(n, k) && n % 16 == 0 && a == n / 16 && b == k / 32
    ensures n == 16 * a && k == 32 * b && a > 0 && b > 0
  {
  }

  lemma WidestIsLeast(a: nat, b: nat)
    requires a > 0 && b > 0 && (a <= 120 || a > 216)
    requires Predict(16 * a, 32 * b, 4).Ok? && Predict(16 * a, 32 * b, 8).Ok? && Predict(16 * a, 32 * b, 16).Ok?
    ensures Predict(16 * a, 32 * b, 16).value.total < Predict(16 * a, 32 * b, 8).value.total
    ensures Predict(16 * a, 32 * b, 16).value.total < Predict(16 * a, 32 * b, 4).value.total
  {
    TileCosts(a, b);
    WorkgroupCounts(a);
    var s4, s8, s16 := ShareFor((a + 1) / 2), ShareFor((a + 3) / 4), ShareFor((a + 7) / 8);
    var x, y, z := (544 * (a * b) + 32 * a) as real, (416 * (a * b) + 32 * a) as real, (352 * (a * b) + 32 * a) as real;
    assert s16 == 1.0 || s16 >= 0.875;
    Product(a, b);
    hide *;
    if s16 == 1.0 {
      FewerBytes(z, s16, y, s8);
      FewerBytes(z, s16, x, s4);
    } else {
      ByShare(a, b, s16, s8);
      ByShare(a, b, s16, s4);
      MoreShare(y, x, s16);
    }
    Cheaper(Predict(16 * a, 32 * b, 16).value, z, s16, Predict(16 * a, 32 * b, 8).value, y, s8);
    Cheaper(Predict(16 * a, 32 * b, 16).value, z, s16, Predict(16 * a, 32 * b, 4).value, x, s4);
  }

  lemma Product(a: nat, b: nat)
    requires a > 0 && b > 0
    ensures a * b >= a
  {
  }

  lemma MoreShare(y: real, x: real, s: real)
    requires y <= x && s > 0.0
    ensures Share(y, s) <= Share(x, s)
  {
    assert (x - y) * s >= 0.0;
  }

  lemma ByShare(a: nat, b: nat, share: real, other: real)
    requires a > 0 && b > 0 && share >= 0.875 && other <= 1.0
    ensures Share((352 * (a * b) + 32 * a) as real, other) < Share((416 * (a * b) + 32 * a) as real, share)
  {
    var y, z := (416 * (a * b) + 32 * a) as real, (352 * (a * b) + 32 * a) as real;
    Product(a, b);
    assert y * (share - 0.875) >= 0.0 && z * (1.0 - other) >= 0.0;
    assert y * share == y * (share - 0.875) + y * 0.875;
    assert z * other == z - z * (1.0 - other);
  }

  lemma EightIsLess(a: nat, b: nat)
    requires b > 0 && 120 < a <= 216
    requires Predict(16 * a, 32 * b, 8).Ok? && Predict(16 * a, 32 * b, 16).Ok?
    ensures Predict(16 * a, 32 * b, 8).value.total < Predict(16 * a, 32 * b, 16).value.total
  {
    hide *;
    TileCosts(a, b);
    WorkgroupCounts(a);
    var s8, s16 := ShareFor((a + 3) / 4), ShareFor((a + 7) / 8);
    SharesBetween(a);
    BetweenShares(a, b, s8, s16);
    Cheaper(Predict(16 * a, 32 * b, 8).value, (416 * (a * b) + 32 * a) as real, s8,
            Predict(16 * a, 32 * b, 16).value, (352 * (a * b) + 32 * a) as real, s16);
  }

  lemma SharesBetween(a: nat)
    requires 120 < a <= 216
    ensures var s8, s16 := ShareFor((a + 3) / 4), ShareFor((a + 7) / 8);
            (s8 == 1.0 && s16 <= 27.0 / 32.0) || (s8 >= 31.0 / 32.0 && s16 == 0.5)
  {
  }

  lemma BetweenShares(a: nat, b: nat, s8: real, s16: real)
    requires a > 0 && b > 0
    requires (s8 == 1.0 && s16 <= 27.0 / 32.0) || (s8 >= 31.0 / 32.0 && s16 == 0.5)
    ensures Share((416 * (a * b) + 32 * a) as real, s16) < Share((352 * (a * b) + 32 * a) as real, s8)
  {
    var y, z := (416 * (a * b) + 32 * a) as real, (352 * (a * b) + 32 * a) as real;
    Product(a, b);
    if s8 == 1.0 && s16 <= 27.0 / 32.0 {
      assert y * (27.0 / 32.0 - s16) >= 0.0;
      assert y * s16 == y * (27.0 / 32.0) - y * (27.0 / 32.0 - s16);
    } else {
      assert z * (s8 - 31.0 / 32.0) >= 0.0;
      assert z * s8 == z * (31.0 / 32.0) + z * (s8 - 31.0 / 32.0);
    }
  }

  /** The first candidate proposed costs least. */
  lemma FirstIsLeast(n: int, k: int)
    requires Legal(n, k) && n % 16 == 0
    requires Predict(n, k, 4).Ok? && Predict(n, k, 8).Ok? && Predict(n, k, 16).Ok?
    ensures PredictShape(n, k).Ok? && |PredictShape(n, k).value| == 3
    ensures var x, y, z := Predict(n, k, 4).value.total, Predict(n, k, 8).value.total, Predict(n, k, 16).value.total;
            && (z < x && z < y ==> Columns(PredictShape(n, k).value)[0] == 16)
            && (y < z || x < z ==> Columns(PredictShape(n, k).value)[0] != 16)
  {
    var x, y, z := Predict(n, k, 4).value, Predict(n, k, 8).value, Predict(n, k, 16).value;
    PredictAccepts(n, k, 4);
    PredictAccepts(n, k, 8);
    PredictAccepts(n, k, 16);
    AllThree(n, k);
    SortedIsSorted([x, y, z]);
    LeastOfThree(x, y, z, Sorted([x, y, z]));
    hide *;
    ColumnsAt(Sorted([x, y, z]));
  }

  lemma ColumnsAt(s: seq<Candidate>)
    requires s != []
    ensures Columns(s)[0] == s[0].tile.columns
  {
  }

  lemma LeastOfThree(x: Candidate, y: Candidate, z: Candidate, s: seq<Candidate>)
    requires IsSorted(s) && multiset(s) == multiset([x, y, z])
    ensures |s| == 3 && s[0] in [x, y, z]
    ensures s[0].total <= x.total && s[0].total <= y.total && s[0].total <= z.total
  {
    assert |s| == |multiset(s)| == |[x, y, z]|;
    assert s[0] in multiset(s);
    forall c | c in [x, y, z]
      ensures s[0].total <= c.total
    {
      assert c in multiset([x, y, z]);
      assert c in s;
    }
    assert x in [x, y, z] && y in [x, y, z] && z in [x, y, z];
  }

  lemma Order(n: int, k: int)
    requires Legal(n, k) && n % 16 == 0
    requires Predict(n, k, 4).Ok? && Predict(n, k, 8).Ok? && Predict(n, k, 16).Ok?
    ensures var x4, x8, x16 := Predict(n, k, 4).value, Predict(n, k, 8).value, Predict(n, k, 16).value;
            && PredictShape(n, k).Ok?
            && (x16.total < x8.total < x4.total ==> Columns(PredictShape(n, k).value) == [16, 8, 4])
            && (x8.total < x16.total < x4.total ==> Columns(PredictShape(n, k).value) == [8, 16, 4])
  {
    hide *;
    var x, y, z := Predict(n, k, 4).value, Predict(n, k, 8).value, Predict(n, k, 16).value;
    PredictAccepts(n, k, 4);
    PredictAccepts(n, k, 8);
    PredictAccepts(n, k, 16);
    AllThree(n, k);
    SortThree(x, y, z);
    ColumnsOfThree(z, y, x);
    ColumnsOfThree(y, z, x);
  }

  lemma ColumnsOfThree(x: Candidate, y: Candidate, z: Candidate)
    ensures Columns([x, y, z]) == [x.tile.columns, y.tile.columns, z.tile.columns]
  {
  }

  /**
   For every n divisible by 16 up to 960, where no grid but the narrowest tile's can have 16 workgroups,
   and above 3456, the order is 16, 8, 4 for every legal k.
   */
  lemma WideTilesFirst(n: int, k: int)
    requires Legal(n, k) && n % 16 == 0 && (n <= 960 || n > 3456)
    ensures PredictShape(n, k).Ok? && Columns(PredictShape(n, k).value) == [16, 8, 4]
  {
    hide *;
    var a, b := n / 16, k / 32;
    Units(n, k, a, b);
    TileCosts(a, b);
    WidestIsLeast(a, b);
    EightBeforeFour(a, b);
    Order(n, k);
  }

  lemma EightBeforeFour(a: nat, b: nat)
    requires b > 0 && (0 < a <= 60 || a > 124)
    requires Predict(16 * a, 32 * b, 4).Ok? && Predict(16 * a, 32 * b, 8).Ok?
    ensures Predict(16 * a, 32 * b, 8).value.total < Predict(16 * a, 32 * b, 4).value.total
  {
    TileCosts(a, b);
    WorkgroupCounts(a);
    var s4, s8 := ShareFor((a + 1) / 2), ShareFor((a + 3) / 4);
    var x, y := (544 * (a * b) + 32 * a) as real, (416 * (a * b) + 32 * a) as real;
    assert s8 == 1.0 && s4 <= 1.0;
    Product(a, b);
    hide *;
    FewerBytes(y, s8, x, s4);
    Cheaper(Predict(16 * a, 32 * b, 8).value, y, s8, Predict(16 * a, 32 * b, 4).value, x, s4);
  }

  /** At n = 3456 the 27 workgroups of the widest tile no longer pay: for every k, 8 comes first. */
  lemma EightFirstAtThreshold(k: int)
    requires Legal(3456, k)
    ensures PredictShape(3456, k).Ok? && Columns(PredictShape(3456, k).value) == [8, 16, 4]
  {
    hide *;
    var a, b := 216, k / 32;
    Units(3456, k, a, b);
    TileCosts(a, b);
    EightIsLess(a, b);
    WideBeforeFour(b);
    Order(3456, k);
  }

  lemma WideBeforeFour(b: nat)
    requires b > 0 && Predict(3456, 32 * b, 4).Ok? && Predict(3456, 32 * b, 16).Ok?
    ensures Predict(3456, 32 * b, 16).value.total < Predict(3456, 32 * b, 4).value.total
  {
    TileCosts(216, b);
    WorkgroupCounts(216);
    var s4, s16 := ShareFor(108), ShareFor(27);
    assert s4 == 1.0 && s16 == 27.0 / 32.0;
    TwentySevenGroups(b);
    hide *;
    Cheaper(Predict(3456, 32 * b, 16).value, (352 * (216 * b) + 32 * 216) as real, s16,
            Predict(3456, 32 * b, 4).value, (544 * (216 * b) + 32 * 216) as real, s4);
  }

  lemma TwentySevenGroups(b: nat)
    requires b > 0
    ensures Share((352 * (216 * b) + 32 * 216) as real, 1.0) < Share((544 * (216 * b) + 32 * 216) as real, 27.0 / 32.0)
  {
  }

  /** One projection in numbers: 4096 rows of 4096 weights with the tile of 8 columns. */
  lemma OneProjection()
    ensures var c := Predict(4096, 4096, 8).value;
            && Predict(4096, 4096, 8).Ok? && c.workgroups == 64 && c.registers == 32 && c.bytes == 13639680
            && c.tile.threads == 256
            && c.compute == 33554432.0 / 18700000000000.0 && c.memory == 13639680.0 / 273000000000.0
            && c.total == c.memory + 0.0000065
  {
    AlwaysMemoryBound(4096, 4096, 8);
  }
}
