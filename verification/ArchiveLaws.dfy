/** Both readers of a weight archive get back exactly the specs that were laid out. */
module ArchiveLaws {
  import opened Bytes
  import opened Results
  import opened Utf8
  import opened TensorArchive

  lemma {:induction false} DimensionsOfBytes(shape: seq<int>)
    requires forall j :: 0 <= j < |shape| ==> 0 <= shape[j] < U64_LIMIT
    ensures Dimensions(DimensionBytes(shape)) == shape
  {
    if shape != [] {
      DimensionsOfBytes(shape[1..]);
      FirstDimension(shape[0]);
      hide Little, FromLittle;
      var b := DimensionBytes(shape);
      assert b[..8] == Little(8, shape[0] % U64_LIMIT) && b[8..] == DimensionBytes(shape[1..]);
      assert shape == [shape[0]] + shape[1..];
    }
  }

  lemma FirstDimension(d: int)
    requires 0 <= d < U64_LIMIT
    ensures FromLittle(Little(8, d % U64_LIMIT)) == d
  {
    Limits();
    assert d % U64_LIMIT == d;
    FromLittleOfLittle(8, d);
  }

  lemma Exactly(a: Bytes, rest: Bytes)
    ensures ReadExactly(a + rest, |a|) == Ok((a, rest))
    ensures ReadUpTo(a + rest, |a|) == (a, rest)
  {
    assert (a + rest)[..|a|] == a && (a + rest)[|a|..] == rest;
  }

  /** The three parts of an entry that are read one after the other. */
  function Fixed(s: TensorSpec): Bytes
    requires Valid(s)
  {
    Little(4, |Encode(s.name)|) + [s.dtypeTag, |s.shape|, 0, 0]
  }

  function Extent(s: TensorSpec): (b: Bytes)
    ensures |b| == 16
  {
    Little(8, s.offset % U64_LIMIT) + Little(8, s.byteLength % U64_LIMIT)
  }

  lemma EntryParts(s: TensorSpec, rest: Bytes)
    requires Valid(s)
    ensures EntryBytes(s) + rest == Fixed(s) + (Encode(s.name) + (DimensionBytes(s.shape) + (Extent(s) + rest)))
  {
    hide Validate, Encode, Little;
  }

  lemma FixedFields(s: TensorSpec)
    requires Valid(s)
    ensures var f := Fixed(s);
            |f| == 8 && FromLittle(f[..4]) == |Encode(s.name)| && f[4] == s.dtypeTag && f[5] == |s.shape|
            && FromLittle(f[6..]) == 0
  {
    Limits();
    FromLittleOfLittle(4, |Encode(s.name)|);
    hide Encode, Little;
    assert Fixed(s)[..4] == Little(4, |Encode(s.name)|);
    assert Fixed(s)[6..] == [0, 0];
    assert FromLittle([0]) == 0 + 256 * FromLittle([]);
    assert [0, 0][1..] == [0];
  }

  lemma ExtentFields(s: TensorSpec)
    requires 0 <= s.offset && 0 <= s.byteLength && EntryPacks(s)
    ensures FromLittle(Extent(s)[..8]) == s.offset && FromLittle(Extent(s)[8..]) == s.byteLength
  {
    Limits();
    assert s.offset % U64_LIMIT == s.offset && s.byteLength % U64_LIMIT == s.byteLength;
    FromLittleOfLittle(8, s.offset);
    FromLittleOfLittle(8, s.byteLength);
    hide Little;
    assert Extent(s)[..8] == Little(8, s.offset);
    assert Extent(s)[8..] == Little(8, s.byteLength);
  }

  /** Reading an entry that was packed gives the spec back and stops at its last byte. */
  lemma EntryRoundTrip(s: TensorSpec, rest: Bytes)
    requires Valid(s) && 0 <= s.offset && EntryPacks(s)
    ensures ReadEntry(EntryBytes(s) + rest) == Ok((Entry(s, 0), rest))
  {
    ValidFields(s);
    EntryParts(s, rest);
    FixedFields(s);
    ExtentFields(s);
    DimensionsOfBytes(s.shape);
    DecodeEncode(s.name);
    hide Fixed, Extent, DimensionBytes, Encode, EntryBytes, Validate, EntryPacks;
    var d := Extent(s) + rest;
    var c := DimensionBytes(s.shape) + d;
    var b := Encode(s.name) + c;
    Exactly(Fixed(s), b);
    Exactly(Encode(s.name), c);
    Exactly(DimensionBytes(s.shape), d);
    Exactly(Extent(s), rest);
    hide ReadExactly, ReadUpTo, Dimensions, Decode, FromLittle;
  }

  lemma ValidFields(s: TensorSpec)
    requires Valid(s)
    ensures Encodable(s.name) && s.byteLength > 0 && forall j :: 0 <= j < |s.shape| ==> 0 <= s.shape[j]
  {
  }

  lemma PrefixFields(count: nat, dataStart: nat)
    requires count < U32_LIMIT && dataStart < U64_LIMIT
    ensures var p := PrefixBytes(count, dataStart);
            && |p| == 24 && p[..8] == MAGIC && FromLittle(p[8..10]) == 1 && FromLittle(p[10..12]) == 0
            && FromLittle(p[12..16]) == count && FromLittle(p[16..24]) == dataStart
  {
    Limits();
    FromLittleOfLittle(2, 1);
    FromLittleOfLittle(2, 0);
    FromLittleOfLittle(4, count);
    FromLittleOfLittle(8, dataStart);
    hide Little, FromLittle;
    Slices(MAGIC, Little(2, 1), Little(2, 0), Little(4, count), Little(8, dataStart));
  }

  lemma Slices(a: Bytes, b: Bytes, c: Bytes, d: Bytes, e: Bytes)
    requires |a| == 8 && |b| == 2 && |c| == 2 && |d| == 4 && |e| == 8
    ensures var p := a + b + c + d + e;
            |p| == 24 && p[..8] == a && p[8..10] == b && p[10..12] == c && p[12..16] == d && p[16..24] == e
  {
  }

  lemma PrefixRoundTrip(count: nat, dataStart: nat, rest: Bytes)
    requires count < U32_LIMIT && dataStart < U64_LIMIT
    ensures ReadPrefix(PrefixBytes(count, dataStart) + rest) == Ok(((count, dataStart), rest))
  {
    PrefixFields(count, dataStart);
    hide Little, FromLittle, PrefixBytes;
    Exactly(PrefixBytes(count, dataStart), rest);
  }

  /** Specs an archive index can hold. */
  ghost predicate Storable(specs: seq<TensorSpec>) {
    AllValid(specs) && forall i :: 0 <= i < |specs| ==> 0 <= specs[i].offset && EntryPacks(specs[i])
  }

  lemma Regrouped(a: Bytes, b: Bytes, c: Bytes)
    ensures (a + b) + c == a + (b + c)
  {
  }

  lemma {:induction false} SpecsRoundTrip(specs: seq<TensorSpec>, rest: Bytes)
    requires Storable(specs)
    ensures ReadSpecs(EntriesBytes(specs) + rest, |specs|) == Ok(specs)
  {
    hide Validate, EntryBytes, ReadEntry, EntryPacks;
    if specs != [] {
      var tail := EntriesBytes(specs[1..]) + rest;
      EntryRoundTrip(specs[0], tail);
      SpecsRoundTrip(specs[1..], rest);
      Regrouped(EntryBytes(specs[0]), EntriesBytes(specs[1..]), rest);
      assert specs == [specs[0]] + specs[1..];
    }
  }

  function InventoryOf(specs: seq<TensorSpec>, seen: Inventory): Inventory {
    if specs == [] then seen
    else InventoryOf(specs[1..], seen[specs[0].name := (specs[0].dtypeTag, specs[0].shape)])
  }

  ghost predicate Fresh(specs: seq<TensorSpec>, seen: Inventory) {
    Distinct(specs) && forall i :: 0 <= i < |specs| ==> specs[i].name !in seen
  }

  lemma {:induction false} InventoryRoundTrip(specs: seq<TensorSpec>, dataStart: nat, seen: Inventory, rest: Bytes)
    requires Storable(specs) && Aligned(specs) && Fresh(specs, seen)
    requires forall i :: 0 <= i < |specs| ==> specs[i].offset >= dataStart
    ensures ReadInventoryEntries(EntriesBytes(specs) + rest, |specs|, dataStart, seen)
         == Ok((InventoryOf(specs, seen), rest))
  {
    hide Validate, EntryBytes, ReadEntry, EntryPacks;
    if specs == [] {
      assert [] + rest == rest;
    } else {
      var s, tail := specs[0], EntriesBytes(specs[1..]) + rest;
      Regrouped(EntryBytes(s), EntriesBytes(specs[1..]), rest);
      EntryRoundTrip(s, tail);
      InventoryEntry(s, EntriesBytes(specs) + rest, tail, |specs| - 1, dataStart, seen);
      FreshRest(specs, seen);
      hide ReadInventoryEntries;
      InventoryRoundTrip(specs[1..], dataStart, seen[s.name := (s.dtypeTag, s.shape)], rest);
    }
  }

  /** One entry of the index, at an aligned offset past the header and under a new name, is taken in. */
  lemma InventoryEntry(s: TensorSpec, b: Bytes, tail: Bytes, count: nat, dataStart: nat, seen: Inventory)
    requires ReadEntry(b) == Ok((Entry(s, 0), tail)) && Validate(s).Ok?
    requires s.name !in seen && s.offset >= dataStart && s.offset % ALIGNMENT == 0
    ensures ReadInventoryEntries(b, count + 1, dataStart, seen)
         == ReadInventoryEntries(tail, count, dataStart, seen[s.name := (s.dtypeTag, s.shape)])
  {
    hide ReadEntry, Validate;
  }

  lemma FreshRest(specs: seq<TensorSpec>, seen: Inventory)
    requires Fresh(specs, seen) && specs != []
    ensures Fresh(specs[1..], seen[specs[0].name := (specs[0].dtypeTag, specs[0].shape)])
  {
  }

  /** The inventory holds each spec's dtype and shape under its name, and nothing else. */
  lemma {:induction false} InventoryContents(specs: seq<TensorSpec>, seen: Inventory, name: Text)
    requires Fresh(specs, seen)
    ensures name in InventoryOf(specs, seen) <==> name in seen || exists i :: 0 <= i < |specs| && specs[i].name == name
    ensures forall i :: 0 <= i < |specs| && specs[i].name == name ==>
              InventoryOf(specs, seen)[name] == (specs[i].dtypeTag, specs[i].shape)
    ensures name in seen ==> InventoryOf(specs, seen)[name] == seen[name]
  {
    if specs != [] {
      var s := specs[0];
      InventoryContents(specs[1..], seen[s.name := (s.dtypeTag, s.shape)], name);
      assert forall i :: 0 < i < |specs| ==> specs[i] == specs[1..][i - 1];
      if name != s.name && name !in seen {
        if exists i :: 0 <= i < |specs| && specs[i].name == name {
          var i :| 0 <= i < |specs| && specs[i].name == name;
          assert specs[1..][i - 1].name == name;
        }
      }
    }
  }

  /**
   For every file that starts with a laid-out header, `specs_from_archive` yields the placed specs,
   with their offsets, and `read_inventory` their names, dtypes and shapes.
   */
  lemma ReadersRecoverLayout(tensors: seq<TensorSpec>, payload: Bytes)
    requires Layout(tensors).Ok?
    ensures var (header, placed) := Layout(tensors).value;
            && SpecsFromArchive(header + payload) == Ok(placed)
            && ReadInventory(header + payload) == Ok(InventoryOf(placed, map[]))
  {
    var (header, placed) := Layout(tensors).value;
    var dataStart := DataStart(Sorted(tensors));
    LayoutGeometry(tensors);
    LayoutPacks(tensors);
    LayoutParts(tensors);
    hide Validate, EntriesBytes, PrefixBytes, ReadSpecs, ReadPrefix, ReadInventoryEntries, Less, Sorted, Layout, Place,
         SpecsFromArchive, ReadInventory;
    forall i | 0 <= i < |placed|
      ensures placed[i].offset >= dataStart
    {
      TightIsAfter(placed, dataStart, i);
    }
    NamesDiffer(placed);
    hide Tight, Arranges, Disjoint, DataStart, IndexSize, Zeros, Header;
    HeaderPrefix(placed, dataStart, payload);
    var zeros := Zeros(dataStart - IndexSize(placed)) + payload;
    hide AllValid, Aligned, Distinct, Packs;
    SpecsOfIndex(placed, dataStart, header + payload, zeros);
    InventoryOfIndex(placed, dataStart, header + payload, zeros);
  }

  /** What reading the prefix leaves of a header and the payload after it. */
  lemma HeaderPrefix(placed: seq<TensorSpec>, dataStart: nat, payload: Bytes)
    requires AllValid(placed) && Packs(placed, dataStart) && IndexSize(placed) <= dataStart
    ensures var file, zeros := Header(placed, dataStart) + payload, Zeros(dataStart - IndexSize(placed)) + payload;
            && ReadPrefix(file) == Ok(((|placed|, dataStart), EntriesBytes(placed) + zeros))
            && |file| - |zeros| <= dataStart
  {
    HeaderSplit(placed, dataStart, payload);
    PacksBounds(placed, dataStart);
    hide EntriesBytes, PrefixBytes, ReadPrefix, Header, Zeros, AllValid, Packs;
    PrefixRoundTrip(|placed|, dataStart, EntriesBytes(placed) + (Zeros(dataStart - IndexSize(placed)) + payload));
  }

  lemma PacksBounds(placed: seq<TensorSpec>, dataStart: nat)
    requires Packs(placed, dataStart)
    ensures |placed| < U32_LIMIT && dataStart < U64_LIMIT
  {
  }

  lemma SpecsOfIndex(placed: seq<TensorSpec>, dataStart: nat, file: Bytes, zeros: Bytes)
    requires AllValid(placed) && Packs(placed, dataStart) && forall i :: 0 <= i < |placed| ==> 0 <= placed[i].offset
    requires ReadPrefix(file) == Ok(((|placed|, dataStart), EntriesBytes(placed) + zeros))
    ensures SpecsFromArchive(file) == Ok(placed)
  {
    hide Validate, EntriesBytes, ReadSpecs, ReadPrefix, EntryPacks;
    SpecsRoundTrip(placed, zeros);
  }

  lemma InventoryOfIndex(placed: seq<TensorSpec>, dataStart: nat, file: Bytes, zeros: Bytes)
    requires AllValid(placed) && Packs(placed, dataStart) && Aligned(placed) && Distinct(placed)
    requires forall i :: 0 <= i < |placed| ==> placed[i].offset >= dataStart
    requires ReadPrefix(file) == Ok(((|placed|, dataStart), EntriesBytes(placed) + zeros)) && |file| - |zeros| <= dataStart
    ensures ReadInventory(file) == Ok(InventoryOf(placed, map[]))
  {
    hide Validate, EntriesBytes, ReadInventoryEntries, ReadPrefix, EntryPacks;
    InventoryRoundTrip(placed, dataStart, map[], zeros);
  }

  lemma HeaderSplit(placed: seq<TensorSpec>, dataStart: nat, payload: Bytes)
    requires AllValid(placed) && IndexSize(placed) <= dataStart
    ensures var zeros := Zeros(dataStart - IndexSize(placed)) + payload;
            && Header(placed, dataStart) + payload == PrefixBytes(|placed|, dataStart) + (EntriesBytes(placed) + zeros)
            && |Header(placed, dataStart) + payload| - |zeros| <= dataStart
  {
    hide EntriesBytes, PrefixBytes, Zeros;
  }

  lemma LayoutPacks(tensors: seq<TensorSpec>)
    requires Layout(tensors).Ok?
    ensures var (header, placed) := Layout(tensors).value;
            var dataStart := DataStart(Sorted(tensors));
            && AllValid(placed) && Packs(placed, dataStart) && IndexSize(placed) <= dataStart
            && header == Header(placed, dataStart)
  {
    hide Validate, Place, EntriesBytes, CheckAll, Sorted;
    CheckAllAccepts(Sorted(tensors));
    PlacedAreValid(Sorted(tensors), DataStart(Sorted(tensors)));
  }

  lemma NamesDiffer(placed: seq<TensorSpec>)
    requires forall i, j :: 0 <= i < j < |placed| ==> Less(placed[i].name, placed[j].name)
    ensures Distinct(placed)
  {
    hide Less;
    forall i, j | 0 <= i < j < |placed|
      ensures placed[i].name != placed[j].name
    {
      LessTotal(placed[i].name, placed[j].name);
    }
  }

  // ---------------------------------------------------------------------------------------
  // What the inventory reader accepts
  // ---------------------------------------------------------------------------------------

  lemma {:induction false} BytesOfDimensions(b: Bytes)
    requires |b| % 8 == 0
    ensures |Dimensions(b)| == |b| / 8 && DimensionBytes(Dimensions(b)) == b
    ensures forall j :: 0 <= j < |Dimensions(b)| ==> 0 <= Dimensions(b)[j] < U64_LIMIT
  {
    if b != [] {
      BytesOfDimensions(b[8..]);
      WordBack(b[..8]);
      hide Little, FromLittle;
      assert b == b[..8] + b[8..];
      assert Dimensions(b)[1..] == Dimensions(b[8..]);
    }
  }

  lemma WordBack(b: Bytes)
    requires |b| == 8
    ensures 0 <= FromLittle(b) < U64_LIMIT && Little(8, FromLittle(b) % U64_LIMIT) == b
  {
    Limits();
    LittleOfFromLittle(b);
    hide Little, FromLittle, Limit;
    var d := FromLittle(b);
    assert d % U64_LIMIT == d;
  }

  lemma ReservedBack(b: Bytes)
    requires |b| == 2 && FromLittle(b) == 0
    ensures b == [0, 0]
  {
    LittleOfFromLittle(b);
    assert Little(2, 0) == [0] + Little(1, 0);
  }

  lemma FixedBack(fixed: Bytes, s: TensorSpec)
    requires |fixed| == 8 && Valid(s) && FromLittle(fixed[..4]) == |Encode(s.name)|
    requires fixed[4] == s.dtypeTag && fixed[5] == |s.shape| && FromLittle(fixed[6..]) == 0
    ensures Fixed(s) == fixed
  {
    Limits();
    LittleOfFromLittle(fixed[..4]);
    ReservedBack(fixed[6..]);
    hide Little, FromLittle, Encode;
    assert fixed == fixed[..4] + [fixed[4], fixed[5]] + fixed[6..];
  }

  lemma ExtentBack(extent: Bytes, s: TensorSpec)
    requires |extent| == 16 && s.offset == FromLittle(extent[..8]) && s.byteLength == FromLittle(extent[8..])
    ensures Extent(s) == extent && 0 <= s.offset < U64_LIMIT && s.byteLength < U64_LIMIT
  {
    WordBack(extent[..8]);
    WordBack(extent[8..]);
    hide Little, FromLittle;
    assert extent == extent[..8] + extent[8..];
  }

  /** The parts an entry was read from. */
  lemma EntryIsRead(b: Bytes, s: TensorSpec, rest: Bytes) returns (fixed: Bytes, raw: Bytes, dims: Bytes, extent: Bytes)
    requires ReadEntry(b) == Ok((Entry(s, 0), rest))
    ensures b == fixed + (raw + (dims + (extent + rest)))
    ensures |fixed| == 8 && |raw| == FromLittle(fixed[..4]) && |dims| == 8 * (fixed[5] as nat) && |extent| == 16
    ensures Decode(raw) == Some(s.name) && s.dtypeTag == fixed[4] && s.shape == Dimensions(dims)
    ensures s.offset == FromLittle(extent[..8]) && s.byteLength == FromLittle(extent[8..]) && FromLittle(fixed[6..]) == 0
  {
    hide Decode, FromLittle, Dimensions, ReadExactly;
    var (f, c) := ReadExactly(b, 8).value;
    var (r, d) := ReadUpTo(c, FromLittle(f[..4]));
    var rank: nat := f[5];
    var (n, e) := ReadExactly(d, 8 * rank).value;
    var (x, _) := ReadExactly(e, 16).value;
    fixed, raw, dims, extent := f, r, n, x;
    ExactlyRead(b, 8);
    ExactlyRead(d, 8 * rank);
    ExactlyRead(e, 16);
    ReadAll(c, FromLittle(f[..4]), 8 * rank);
  }

  lemma ExactlyRead(b: Bytes, n: nat)
    requires ReadExactly(b, n).Ok?
    ensures var (a, rest) := ReadExactly(b, n).value; b == a + rest && |a| == n
  {
  }

  /** Something follows the name, so all of it was there. */
  lemma ReadAll(b: Bytes, n: nat, m: nat)
    requires ReadExactly(ReadUpTo(b, n).1, m).Ok? && ReadExactly(ReadExactly(ReadUpTo(b, n).1, m).value.1, 16).Ok?
    ensures |ReadUpTo(b, n).0| == n
  {
  }

  /** An accepted entry without reserved bits was packed from its spec. */
  lemma EntryBack(b: Bytes, s: TensorSpec, rest: Bytes)
    requires ReadEntry(b) == Ok((Entry(s, 0), rest)) && Valid(s)
    ensures b == EntryBytes(s) + rest && 0 <= s.offset && EntryPacks(s)
  {
    var fixed, raw, dims, extent := EntryIsRead(b, s, rest);
    hide *;
    DecodesExactlyEncodings(raw, s.name);
    BytesOfDimensions(dims);
    FixedBack(fixed, s);
    ExtentBack(extent, s);
    EntryParts(s, rest);
    PacksIs(s);
  }

  lemma PacksIs(s: TensorSpec)
    requires s.offset < U64_LIMIT && s.byteLength < U64_LIMIT
    requires forall j :: 0 <= j < |s.shape| ==> s.shape[j] < U64_LIMIT
    ensures EntryPacks(s)
  {
  }

  /** What the inventory reader demands of the entries of an index. */
  ghost predicate Indexed(specs: seq<TensorSpec>, dataStart: nat, seen: Inventory) {
    Storable(specs) && Aligned(specs) && Fresh(specs, seen) && forall i :: 0 <= i < |specs| ==> specs[i].offset >= dataStart
  }

  lemma IndexedPrepend(s: TensorSpec, specs: seq<TensorSpec>, dataStart: nat, seen: Inventory)
    requires Valid(s) && 0 <= s.offset && EntryPacks(s)
    requires s.name !in seen && s.offset >= dataStart && s.offset % ALIGNMENT == 0
    requires Indexed(specs, dataStart, seen[s.name := (s.dtypeTag, s.shape)])
    ensures Indexed([s] + specs, dataStart, seen)
  {
    hide Validate, EntryPacks;
    var all := [s] + specs;
    forall i | 0 <= i < |all|
      ensures Valid(all[i]) && 0 <= all[i].offset && EntryPacks(all[i]) && all[i].name !in seen
              && all[i].offset >= dataStart && all[i].offset % ALIGNMENT == 0
    {
      assert i > 0 ==> all[i] == specs[i - 1];
    }
    forall i, j | 0 <= i < j < |all|
      ensures all[i].name != all[j].name
    {
      assert all[j] == specs[j - 1] && (i > 0 ==> all[i] == specs[i - 1]);
    }
  }

  lemma {:induction false} InventoryBack(b: Bytes, count: nat, dataStart: nat, seen: Inventory, inventory: Inventory,
                                         rest: Bytes)
    returns (specs: seq<TensorSpec>)
    requires ReadInventoryEntries(b, count, dataStart, seen) == Ok((inventory, rest))
    ensures |specs| == count && Indexed(specs, dataStart, seen)
    ensures b == EntriesBytes(specs) + rest && inventory == InventoryOf(specs, seen)
    decreases count
  {
    hide Validate, EntryBytes, ReadEntry, EntryPacks;
    if count == 0 {
      specs := [];
      assert [] + rest == rest;
    } else {
      var s, tail := ReadEntry(b).value.0.spec, ReadEntry(b).value.1;
      EntryBack(b, s, tail);
      var more := InventoryBack(tail, count - 1, dataStart, seen[s.name := (s.dtypeTag, s.shape)], inventory, rest);
      IndexedPrepend(s, more, dataStart, seen);
      specs := [s] + more;
      hide Indexed, Storable, ReadInventoryEntries;
      assert specs[1..] == more;
      Regrouped(EntryBytes(s), EntriesBytes(more), rest);
    }
  }

  lemma PrefixBack(b: Bytes, count: nat, dataStart: nat, rest: Bytes)
    requires ReadPrefix(b) == Ok(((count, dataStart), rest))
    ensures b == PrefixBytes(count, dataStart) + rest && count < U32_LIMIT && dataStart < U64_LIMIT
  {
    var p := b[..24];
    Limits();
    LittleOfFromLittle(p[8..10]);
    LittleOfFromLittle(p[10..12]);
    LittleOfFromLittle(p[12..16]);
    LittleOfFromLittle(p[16..24]);
    hide Little, FromLittle;
    assert p == p[..8] + p[8..10] + p[10..12] + p[12..16] + p[16..24];
    assert b == p + rest;
  }

  /** A file that starts with the packed index of `specs`, none of which is placed before `dataStart`. */
  ghost predicate StartsWithIndex(file: Bytes, specs: seq<TensorSpec>, dataStart: nat) {
    && Indexed(specs, dataStart, map[]) && |specs| < U32_LIMIT && dataStart < U64_LIMIT
    && IndexSize(specs) <= dataStart
    && PrefixBytes(|specs|, dataStart) + EntriesBytes(specs) <= file
  }

  /**
   `read_inventory` accepts exactly the files that start with a packed index: this magic and version and
   no flags, valid specs with different names, no reserved bits, aligned offsets behind the index.
   */
  lemma InventoryAccepts(file: Bytes, inventory: Inventory)
    ensures ReadInventory(file) == Ok(inventory)
       <==> exists specs: seq<TensorSpec>, dataStart: nat ::
              StartsWithIndex(file, specs, dataStart) && inventory == InventoryOf(specs, map[])
  {
    if ReadInventory(file) == Ok(inventory) {
      var specs, dataStart := InventoryIsIndexed(file, inventory);
      assert StartsWithIndex(file, specs, dataStart);
    }
    if specs: seq<TensorSpec>, dataStart: nat :|
        StartsWithIndex(file, specs, dataStart) && inventory == InventoryOf(specs, map[]) {
      IndexIsInventory(file, specs, dataStart);
    }
  }

  lemma InventoryIsIndexed(file: Bytes, inventory: Inventory) returns (specs: seq<TensorSpec>, dataStart: nat)
    requires ReadInventory(file) == Ok(inventory)
    ensures StartsWithIndex(file, specs, dataStart) && inventory == InventoryOf(specs, map[])
  {
    var ((count, start), b) := ReadPrefix(file).value;
    var rest := ReadInventoryEntries(b, count, start, map[]).value.1;
    assert |file| - |rest| <= start;
    hide *;
    dataStart := start;
    PrefixBack(file, count, start, b);
    specs := InventoryBack(b, count, start, map[], inventory, rest);
    IndexFound(file, specs, start, rest);
  }

  lemma IndexFound(file: Bytes, specs: seq<TensorSpec>, dataStart: nat, rest: Bytes)
    requires Indexed(specs, dataStart, map[]) && |specs| < U32_LIMIT && dataStart < U64_LIMIT
    requires file == PrefixBytes(|specs|, dataStart) + (EntriesBytes(specs) + rest) && |file| - |rest| <= dataStart
    ensures StartsWithIndex(file, specs, dataStart)
  {
    hide EntriesBytes, PrefixBytes, IndexSize;
    Regrouped(PrefixBytes(|specs|, dataStart), EntriesBytes(specs), rest);
  }

  lemma IndexIsInventory(file: Bytes, specs: seq<TensorSpec>, dataStart: nat)
    requires StartsWithIndex(file, specs, dataStart)
    ensures ReadInventory(file) == Ok(InventoryOf(specs, map[]))
  {
    var rest := AfterIndex(file, specs, dataStart);
    hide EntriesBytes, PrefixBytes, IndexSize, Validate, EntryPacks, ReadPrefix, ReadInventory, ReadInventoryEntries,
         InventoryOf;
    PrefixRoundTrip(|specs|, dataStart, EntriesBytes(specs) + rest);
    hide StartsWithIndex, Indexed;
    EntriesAreInventory(file, specs, dataStart, rest);
  }

  lemma EntriesAreInventory(file: Bytes, specs: seq<TensorSpec>, dataStart: nat, rest: Bytes)
    requires Indexed(specs, dataStart, map[]) && |file| - |rest| <= dataStart
    requires ReadPrefix(file) == Ok(((|specs|, dataStart), EntriesBytes(specs) + rest))
    ensures ReadInventory(file) == Ok(InventoryOf(specs, map[]))
  {
    InventoryRoundTrip(specs, dataStart, map[], rest);
    hide EntriesBytes, ReadInventoryEntries, ReadPrefix, InventoryOf, Indexed;
  }

  lemma AfterIndex(file: Bytes, specs: seq<TensorSpec>, dataStart: nat) returns (rest: Bytes)
    requires StartsWithIndex(file, specs, dataStart)
    ensures file == PrefixBytes(|specs|, dataStart) + (EntriesBytes(specs) + rest)
    ensures Indexed(specs, dataStart, map[]) && |file| - |rest| <= dataStart
  {
    hide EntriesBytes, PrefixBytes, IndexSize, Validate, EntryPacks;
    var index := PrefixBytes(|specs|, dataStart) + EntriesBytes(specs);
    rest := file[|index|..];
    assert file == index + rest;
    Regrouped(PrefixBytes(|specs|, dataStart), EntriesBytes(specs), rest);
  }
}
