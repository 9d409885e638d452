/**
 The weight archive of python/llmopt_backend/tensor_archive.py: a binary index in name order,
 padded to a 256-byte boundary, and payloads that each start on one.
 */
module TensorArchive {
  import opened Bytes
  import opened Results
  import opened Utf8

  const ALIGNMENT := 256
  const PREFIX_BYTES := 24
  const DTYPE_COUNT := 18
  const MAGIC: Bytes := [0x4C, 0x4C, 0x4D, 0x4F, 0x50, 0x54, 0x57, 0x54]

  datatype TensorSpec = TensorSpec(name: Text, dtypeTag: int, shape: seq<int>, byteLength: int, offset: int)

  datatype Error =
    | UnsupportedDtype
    | InvalidName
    | NameNotEncodable
    | NameTooLong
    | RankTooLarge
    | NegativeDimension
    | NoBytes
    | EmptyArchive
    | DuplicateKey
    | DoesNotPack
    | LayoutOverflowed
    | Truncated
    | NotUtf8
    | UnsupportedHeader
    | InvalidEntry
    | IndexExceedsData
    | PayloadExceeds
    | PayloadShort
    | StreamRaised

  function Align(value: int): (a: int)
    ensures value <= a < value + ALIGNMENT && a % ALIGNMENT == 0
  {
    (value + ALIGNMENT - 1) / ALIGNMENT * ALIGNMENT
  }

  /** `_validate`, in the order of its checks. */
  function Validate(s: TensorSpec): Result<(), Error> {
    if !(0 <= s.dtypeTag < DTYPE_COUNT) then Err(UnsupportedDtype)
    else if s.name == [] || 0 in s.name then Err(InvalidName)
    else if !Encodable(s.name) then Err(NameNotEncodable)
    else if |Encode(s.name)| >= U32_LIMIT then Err(NameTooLong)
    else if |s.shape| > 0xFF then Err(RankTooLarge)
    else if exists i :: 0 <= i < |s.shape| && s.shape[i] < 0 then Err(NegativeDimension)
    else if s.byteLength <= 0 then Err(NoBytes)
    else Ok(())
  }

  /** A spec `_validate` accepts. */
  predicate Valid(s: TensorSpec) {
    Validate(s).Ok?
  }

  // ---------------------------------------------------------------------------------------
  // Order of names: Python compares text code point by code point
  // ---------------------------------------------------------------------------------------

  predicate Less(a: Text, b: Text) {
    if b == [] then false
    else if a == [] then true
    else if a[0] != b[0] then a[0] < b[0]
    else Less(a[1..], b[1..])
  }

  lemma {:induction false} LessTotal(a: Text, b: Text)
    ensures a == b || Less(a, b) || Less(b, a)
    ensures !(Less(a, b) && Less(b, a)) && !Less(a, a)
  {
    if a != [] && b != [] {
      LessTotal(a[1..], b[1..]);
      assert a == [a[0]] + a[1..] && b == [b[0]] + b[1..];
    }
    if a != [] {
      LessTotal(a[1..], a[1..]);
    }
  }

  lemma {:induction false} LessTransitive(a: Text, b: Text, c: Text)
    requires Less(a, b) && Less(b, c)
    ensures Less(a, c)
  {
    if a != [] && a[0] == b[0] == c[0] {
      LessTransitive(a[1..], b[1..], c[1..]);
    }
  }

  /** `sorted(..., key=name)`: stable insertion. */
  function Insert(s: TensorSpec, sorted: seq<TensorSpec>): (r: seq<TensorSpec>)
    ensures multiset(r) == multiset(sorted) + multiset{s} && |r| == |sorted| + 1
  {
    if sorted == [] then [s]
    else if !Less(sorted[0].name, s.name) then
      assert [s] + sorted == [s] + sorted;
      [s] + sorted
    else
      assert sorted == [sorted[0]] + sorted[1..];
      [sorted[0]] + Insert(s, sorted[1..])
  }

  function Sorted(specs: seq<TensorSpec>): (r: seq<TensorSpec>)
    ensures multiset(r) == multiset(specs) && |r| == |specs|
  {
    if specs == [] then []
    else
      assert specs == [specs[0]] + specs[1..];
      Insert(specs[0], Sorted(specs[1..]))
  }

  /** No name comes after a later one. */
  ghost predicate InOrder(specs: seq<TensorSpec>) {
    forall i, j :: 0 <= i < j < |specs| ==> !Less(specs[j].name, specs[i].name)
  }

  ghost predicate Distinct(specs: seq<TensorSpec>) {
    forall i, j :: 0 <= i < j < |specs| ==> specs[i].name != specs[j].name
  }

  lemma {:induction false} InsertKeepsOrder(s: TensorSpec, sorted: seq<TensorSpec>)
    requires InOrder(sorted)
    ensures InOrder(Insert(s, sorted))
  {
    hide Less;
    if sorted != [] {
      var head, tail := sorted[0], sorted[1..];
      LessTotal(head.name, s.name);
      if !Less(head.name, s.name) {
        forall j | 0 <= j < |sorted|
          ensures !Less(sorted[j].name, s.name)
        {
          if j > 0 && Less(sorted[j].name, s.name) && head.name != s.name {
            LessTransitive(sorted[j].name, s.name, head.name);
          }
        }
        PrependInOrder(s, sorted);
      } else {
        InsertKeepsOrder(s, tail);
        var t := Insert(s, tail);
        forall j | 0 <= j < |t|
          ensures !Less(t[j].name, head.name)
        {
          assert t[j] in multiset(t);
          assert t[j] == s || t[j] in tail;
        }
        PrependInOrder(head, t);
      }
    }
  }

  lemma PrependInOrder(head: TensorSpec, tail: seq<TensorSpec>)
    requires InOrder(tail) && forall j :: 0 <= j < |tail| ==> !Less(tail[j].name, head.name)
    ensures InOrder([head] + tail)
  {
    hide Less;
    var r := [head] + tail;
    assert forall j :: 1 <= j < |r| ==> r[j] == tail[j - 1];
  }

  lemma {:induction false} SortedInOrder(specs: seq<TensorSpec>)
    ensures InOrder(Sorted(specs))
  {
    if specs != [] {
      SortedInOrder(specs[1..]);
      InsertKeepsOrder(specs[0], Sorted(specs[1..]));
    }
  }

  // ---------------------------------------------------------------------------------------
  // The index
  // ---------------------------------------------------------------------------------------

  function EntrySize(s: TensorSpec): nat {
    8 + |Encode(s.name)| + 8 * |s.shape| + 16
  }

  function IndexSize(specs: seq<TensorSpec>): nat {
    if specs == [] then PREFIX_BYTES else EntrySize(specs[0]) + IndexSize(specs[1..])
  }

  function DimensionBytes(shape: seq<int>): (b: Bytes)
    ensures |b| == 8 * |shape|
  {
    if shape == [] then [] else Little(8, shape[0] % U64_LIMIT) + DimensionBytes(shape[1..])
  }

  /** One index entry; the two bytes after the rank are reserved. */
  function EntryBytes(s: TensorSpec): (b: Bytes)
    requires Valid(s)
    ensures |b| == EntrySize(s)
  {
    Little(4, |Encode(s.name)|) + [s.dtypeTag, |s.shape|, 0, 0] + Encode(s.name) + DimensionBytes(s.shape)
    + Little(8, s.offset % U64_LIMIT) + Little(8, s.byteLength % U64_LIMIT)
  }

  function EntriesBytes(specs: seq<TensorSpec>): (b: Bytes)
    requires forall i :: 0 <= i < |specs| ==> Valid(specs[i])
    ensures |b| + PREFIX_BYTES == IndexSize(specs)
  {
    if specs == [] then [] else EntryBytes(specs[0]) + EntriesBytes(specs[1..])
  }

  function PrefixBytes(count: nat, dataStart: nat): (b: Bytes)
    ensures |b| == PREFIX_BYTES
  {
    MAGIC + Little(2, 1) + Little(2, 0) + Little(4, count) + Little(8, dataStart)
  }

  function Zeros(n: nat): (b: Bytes)
    ensures |b| == n && forall i :: 0 <= i < n ==> b[i] == 0
  {
    seq(n, _ => 0)
  }

  // ---------------------------------------------------------------------------------------
  // The layout
  // ---------------------------------------------------------------------------------------

  /** Offsets in order: each payload starts at the first boundary from the end of the one before. */
  function Place(specs: seq<TensorSpec>, cursor: int): (placed: seq<TensorSpec>)
    ensures |placed| == |specs|
    ensures forall i :: 0 <= i < |specs| ==> placed[i] == specs[i].(offset := placed[i].offset)
  {
    if specs == [] then []
    else
      var offset := Align(cursor);
      [specs[0].(offset := offset)] + Place(specs[1..], offset + specs[0].byteLength)
  }

  /** Everything `struct.pack` is given fits its field. */
  predicate Packs(placed: seq<TensorSpec>, dataStart: nat) {
    && |placed| < U32_LIMIT && dataStart < U64_LIMIT
    && forall i :: 0 <= i < |placed| ==> EntryPacks(placed[i])
  }

  predicate EntryPacks(s: TensorSpec) {
    && s.offset < U64_LIMIT && s.byteLength < U64_LIMIT
    && forall j :: 0 <= j < |s.shape| ==> s.shape[j] < U64_LIMIT
  }

  /** The first complaint of the checking loop over the sorted specs. */
  function CheckAll(specs: seq<TensorSpec>): Result<(), Error> {
    if specs == [] then Ok(())
    else
      var n := |specs| - 1;
      var _ :- CheckAll(specs[..n]);
      var _ :- Validate(specs[n]);
      if exists i :: 0 <= i < n && specs[i].name == specs[n].name then Err(DuplicateKey) else Ok(())
  }

  ghost predicate AllValid(specs: seq<TensorSpec>) {
    forall i :: 0 <= i < |specs| ==> Valid(specs[i])
  }

  lemma {:induction false} CheckAllAccepts(specs: seq<TensorSpec>)
    ensures CheckAll(specs).Ok? <==> AllValid(specs) && Distinct(specs)
  {
    hide Validate;
    if specs != [] {
      var n := |specs| - 1;
      CheckAllAccepts(specs[..n]);
      assert specs[..n] + [specs[n]] == specs;
    }
  }

  function DataStart(specs: seq<TensorSpec>): (d: nat)
    ensures d >= IndexSize(specs)
  {
    Align(IndexSize(specs))
  }

  function Header(placed: seq<TensorSpec>, dataStart: nat): (b: Bytes)
    requires forall i :: 0 <= i < |placed| ==> Valid(placed[i])
    requires IndexSize(placed) <= dataStart
    ensures |b| == dataStart
  {
    PrefixBytes(|placed|, dataStart) + EntriesBytes(placed) + Zeros(dataStart - IndexSize(placed))
  }

  /** `_layout`. */
  function Layout(tensors: seq<TensorSpec>): Result<(Bytes, seq<TensorSpec>), Error> {
    var sorted := Sorted(tensors);
    if sorted == [] then Err(EmptyArchive)
    else
      var _ :- CheckAll(sorted);
      CheckAllAccepts(sorted);
      var dataStart := DataStart(sorted);
      var placed := Place(sorted, dataStart);
      if !Packs(placed, dataStart) then Err(DoesNotPack)
      else
        PlacedAreValid(sorted, dataStart);
        Ok((Header(placed, dataStart), placed))
  }

  lemma {:induction false} SameIndexSize(specs: seq<TensorSpec>, placed: seq<TensorSpec>)
    requires |placed| == |specs|
    requires forall i :: 0 <= i < |specs| ==> placed[i] == specs[i].(offset := placed[i].offset)
    ensures IndexSize(placed) == IndexSize(specs)
  {
    if specs != [] {
      SameIndexSize(specs[1..], placed[1..]);
    }
  }

  lemma PlacedAreValid(sorted: seq<TensorSpec>, dataStart: nat)
    requires forall i :: 0 <= i < |sorted| ==> Valid(sorted[i])
    ensures var placed := Place(sorted, dataStart);
            (forall i :: 0 <= i < |placed| ==> Valid(placed[i])) && IndexSize(placed) == IndexSize(sorted)
  {
    var placed := Place(sorted, dataStart);
    SameIndexSize(sorted, placed);
    forall i | 0 <= i < |placed|
      ensures Valid(placed[i])
    {
      assert Valid(sorted[i]);
    }
  }

  // ---------------------------------------------------------------------------------------
  // Where everything ends up
  // ---------------------------------------------------------------------------------------

  /** The end of what comes before payload `i`. */
  function EndBefore(placed: seq<TensorSpec>, dataStart: int, i: nat): int
    requires i <= |placed|
  {
    if i == 0 then dataStart else placed[i - 1].offset + placed[i - 1].byteLength
  }

  ghost predicate Aligned(placed: seq<TensorSpec>) {
    forall i :: 0 <= i < |placed| ==> placed[i].offset % ALIGNMENT == 0
  }

  /** Each payload follows the one before it, or the header, with a gap under 256 bytes. */
  ghost predicate Tight(placed: seq<TensorSpec>, dataStart: int) {
    forall i :: 0 <= i < |placed| ==> 0 <= placed[i].offset - EndBefore(placed, dataStart, i) < ALIGNMENT
  }

  ghost predicate Disjoint(placed: seq<TensorSpec>) {
    forall i, j :: 0 <= i < j < |placed| ==> placed[i].offset + placed[i].byteLength <= placed[j].offset
  }

  lemma {:induction false} PlaceGeometry(specs: seq<TensorSpec>, cursor: int)
    ensures Aligned(Place(specs, cursor)) && Tight(Place(specs, cursor), cursor)
  {
    hide Align;
    if specs != [] {
      var first := specs[0].(offset := Align(cursor));
      var next := first.offset + first.byteLength;
      assert Place(specs, cursor) == [first] + Place(specs[1..], next);
      hide *;
      PlaceGeometry(specs[1..], next);
      TightPrepend(first, Place(specs[1..], next), cursor, next);
    }
  }

  lemma TightPrepend(s: TensorSpec, tail: seq<TensorSpec>, cursor: int, next: int)
    requires s.offset == Align(cursor) && next == s.offset + s.byteLength
    requires Aligned(tail) && Tight(tail, next)
    ensures Aligned([s] + tail) && Tight([s] + tail, cursor)
  {
    hide Align;
    var placed := [s] + tail;
    forall i | 0 <= i < |placed|
      ensures 0 <= placed[i].offset - EndBefore(placed, cursor, i) < ALIGNMENT && placed[i].offset % ALIGNMENT == 0
    {
      if i > 0 {
        assert placed[i] == tail[i - 1];
        assert EndBefore(placed, cursor, i) == EndBefore(tail, next, i - 1);
      }
    }
  }

  lemma LengthOfValid(s: TensorSpec)
    requires Valid(s)
    ensures s.byteLength > 0
  {
  }

  lemma {:induction false} TightIsDisjoint(placed: seq<TensorSpec>, dataStart: nat, i: nat, j: nat)
    requires AllValid(placed) && Tight(placed, dataStart) && i < j < |placed|
    ensures placed[i].offset + placed[i].byteLength <= placed[j].offset
  {
    hide Validate;
    assert placed[j].offset >= EndBefore(placed, dataStart, j);
    LengthOfValid(placed[j - 1]);
    if i < j - 1 {
      TightIsDisjoint(placed, dataStart, i, j - 1);
    }
  }

  lemma {:induction false} TightIsAfter(placed: seq<TensorSpec>, dataStart: int, i: nat)
    requires AllValid(placed) && Tight(placed, dataStart) && i < |placed|
    ensures placed[i].offset >= dataStart
  {
    hide Validate;
    assert placed[i].offset >= EndBefore(placed, dataStart, i);
    if i > 0 {
      LengthOfValid(placed[i - 1]);
      TightIsAfter(placed, dataStart, i - 1);
    }
  }

  /** What a layout keeps of the specs it was given: everything but the offsets, in name order. */
  ghost predicate Arranges(placed: seq<TensorSpec>, tensors: seq<TensorSpec>) {
    && |placed| == |tensors|
    && (forall i :: 0 <= i < |placed| ==> placed[i] == Sorted(tensors)[i].(offset := placed[i].offset))
    && (forall i, j :: 0 <= i < j < |placed| ==> Less(placed[i].name, placed[j].name))
  }

  /**
   An accepted layout: the header is padded to a boundary, names strictly increase, every payload
   starts on a boundary behind the header, gaps stay under 256 bytes and extents never overlap.
   */
  lemma LayoutGeometry(tensors: seq<TensorSpec>)
    requires Layout(tensors).Ok?
    ensures var (header, placed) := Layout(tensors).value;
            && Arranges(placed, tensors) && placed != [] && AllValid(placed)
            && |header| % ALIGNMENT == 0 && placed[0].offset == |header|
            && Aligned(placed) && Tight(placed, |header|) && Disjoint(placed)
  {
    var sorted := Sorted(tensors);
    var dataStart := DataStart(sorted);
    CheckAllAccepts(sorted);
    PlacedAreValid(sorted, dataStart);
    SortedInOrder(tensors);
    var placed := Place(sorted, dataStart);
    PlaceGeometry(sorted, dataStart);
    hide *;
    SortedStrictly(tensors, placed);
    forall i, j | 0 <= i < j < |placed|
      ensures placed[i].offset + placed[i].byteLength <= placed[j].offset
    {
      TightIsDisjoint(placed, dataStart, i, j);
    }
    LayoutParts(tensors);
    DisjointIs(placed);
    FirstOffset(placed, dataStart);
  }

  lemma LayoutParts(tensors: seq<TensorSpec>)
    requires Layout(tensors).Ok?
    ensures var sorted := Sorted(tensors);
            && AllValid(sorted) && sorted != [] && DataStart(sorted) % ALIGNMENT == 0
            && Layout(tensors).value.1 == Place(sorted, DataStart(sorted))
            && |Layout(tensors).value.0| == DataStart(sorted)
  {
    hide Validate, Place, EntriesBytes, CheckAll, Sorted, Align;
    CheckAllAccepts(Sorted(tensors));
  }

  lemma DisjointIs(placed: seq<TensorSpec>)
    requires forall i, j :: 0 <= i < j < |placed| ==> placed[i].offset + placed[i].byteLength <= placed[j].offset
    ensures Disjoint(placed)
  {
  }

  lemma SortedStrictly(tensors: seq<TensorSpec>, placed: seq<TensorSpec>)
    requires InOrder(Sorted(tensors)) && Distinct(Sorted(tensors)) && |placed| == |tensors|
    requires forall i :: 0 <= i < |placed| ==> placed[i] == Sorted(tensors)[i].(offset := placed[i].offset)
    ensures Arranges(placed, tensors)
  {
    hide Less, Sorted;
    var sorted := Sorted(tensors);
    forall i, j | 0 <= i < j < |placed|
      ensures Less(placed[i].name, placed[j].name)
    {
      assert placed[i].name == sorted[i].name && placed[j].name == sorted[j].name;
      LessTotal(sorted[i].name, sorted[j].name);
    }
    hide InOrder, Distinct;
  }

  lemma FirstOffset(placed: seq<TensorSpec>, dataStart: nat)
    requires placed != [] && dataStart % ALIGNMENT == 0 && Aligned(placed) && Tight(placed, dataStart)
    ensures placed[0].offset == dataStart
  {
    assert 0 <= placed[0].offset - dataStart < ALIGNMENT;
  }

  // ---------------------------------------------------------------------------------------
  // Reading the index
  // ---------------------------------------------------------------------------------------

  datatype Entry = Entry(spec: TensorSpec, reserved: nat)

  /** `file.read(n)`: at the end of the file there may be less. */
  function ReadUpTo(b: Bytes, n: nat): (r: (Bytes, Bytes))
    ensures r.0 + r.1 == b
  {
    if n <= |b| then (b[..n], b[n..]) else (b, [])
  }

  /** `struct.unpack` of a read: fails unless all bytes are there. */
  function ReadExactly(b: Bytes, n: nat): (r: Result<(Bytes, Bytes), Error>)
    ensures r.Ok? ==> |r.value.0| == n
  {
    if n <= |b| then Ok((b[..n], b[n..])) else Err(Truncated)
  }

  function Dimensions(b: Bytes): (shape: seq<int>)
    requires |b| % 8 == 0
  {
    if b == [] then [] else [FromLittle(b[..8])] + Dimensions(b[8..])
  }

  function ReadEntry(b: Bytes): Result<(Entry, Bytes), Error> {
    var (fixed, b) :- ReadExactly(b, 8);
    var size, rank: nat := FromLittle(fixed[..4]), fixed[5];
    var (raw, b) := ReadUpTo(b, size);
    match Decode(raw)
    case None => Err(NotUtf8)
    case Some(name) =>
      var (dims, b) :- ReadExactly(b, 8 * rank);
      var (extent, rest) :- ReadExactly(b, 16);
      var spec := TensorSpec(name, fixed[4], Dimensions(dims), FromLittle(extent[8..]), FromLittle(extent[..8]));
      Ok((Entry(spec, FromLittle(fixed[6..])), rest))
  }

  /** The count and the data start of a prefix with the right magic, version and flags. */
  function ReadPrefix(b: Bytes): Result<((nat, nat), Bytes), Error> {
    var (p, rest) :- ReadExactly(b, PREFIX_BYTES);
    if p[..8] != MAGIC || FromLittle(p[8..10]) != 1 || FromLittle(p[10..12]) != 0 then Err(UnsupportedHeader)
    else Ok(((FromLittle(p[12..16]), FromLittle(p[16..24])), rest))
  }

  function ReadSpecs(b: Bytes, count: nat): Result<seq<TensorSpec>, Error>
    decreases count
  {
    if count == 0 then Ok([])
    else
      var (entry, b) :- ReadEntry(b);
      var tail :- ReadSpecs(b, count - 1);
      Ok([entry.spec] + tail)
  }

  /** `specs_from_archive` of bench/convert_gguf_exl3.py. */
  function SpecsFromArchive(file: Bytes): Result<seq<TensorSpec>, Error> {
    var ((count, dataStart), b) :- ReadPrefix(file);
    ReadSpecs(b, count)
  }

  type Inventory = map<Text, (int, seq<int>)>

  function ReadInventoryEntries(b: Bytes, count: nat, dataStart: nat, seen: Inventory): Result<(Inventory, Bytes),
                                Error>
    decreases count
  {
    if count == 0 then Ok((seen, b))
    else
      var (entry, b) :- ReadEntry(b);
      var s := entry.spec;
      var _ :- Validate(s);
      if entry.reserved != 0 || s.name in seen || s.offset < dataStart || s.offset % ALIGNMENT != 0 then Err(InvalidEntry)
      else ReadInventoryEntries(b, count - 1, dataStart, seen[s.name := (s.dtypeTag, s.shape)])
  }

  /** `read_inventory`; the dtype is kept as its tag. */
  function ReadInventory(file: Bytes): Result<Inventory, Error> {
    var ((count, dataStart), b) :- ReadPrefix(file);
    var (inventory, rest) :- ReadInventoryEntries(b, count, dataStart, map[]);
    if |file| - |rest| > dataStart then Err(IndexExceedsData) else Ok(inventory)
  }
}
