/** When tensors can be archived, where each of their payloads goes, and one archive byte for byte. */
module ArchiveFormat {
  import opened Bytes
  import opened Results
  import opened Utf8
  import opened TensorArchive

  // ---------------------------------------------------------------------------------------
  // What is accepted
  // ---------------------------------------------------------------------------------------

  /** One tensor by itself: a dtype of the table, a name, a shape and a length the index can hold. */
  predicate FieldsFit(s: TensorSpec) {
    && 0 <= s.dtypeTag < 18
    && s.name != [] && 0 !in s.name && Encodable(s.name) && |Encode(s.name)| < 0x1_0000_0000
    && |s.shape| <= 255
    && (forall j :: 0 <= j < |s.shape| ==> 0 <= s.shape[j] < 0x1_0000_0000_0000_0000)
    && 0 < s.byteLength < 0x1_0000_0000_0000_0000
  }

  /** The next multiple of 256. */
  function RoundUp(n: int): int {
    (n + 255) / 256 * 256
  }

  /** The bytes of the index: its prefix, and per tensor 24 fixed bytes, the name and the dimensions. */
  function IndexBytes(specs: seq<TensorSpec>): nat {
    if specs == [] then 24 else 24 + |Encode(specs[0].name)| + 8 * |specs[0].shape| + IndexBytes(specs[1..])
  }

  /** What the payloads of `specs` take up when each is filled up to a multiple of 256. */
  function PaddedBytes(specs: seq<TensorSpec>): int {
    if specs == [] then 0 else RoundUp(specs[0].byteLength) + PaddedBytes(specs[1..])
  }

  /** Where payload `i` goes when the index lists `sorted`. */
  function OffsetOf(sorted: seq<TensorSpec>, i: nat): int
    requires i <= |sorted|
  {
    RoundUp(IndexBytes(sorted)) + PaddedBytes(sorted[..i])
  }

  lemma {:induction false} IndexBytesIs(specs: seq<TensorSpec>)
    ensures IndexSize(specs) == IndexBytes(specs)
  {
    if specs != [] {
      IndexBytesIs(specs[1..]);
    }
  }

  lemma {:induction false} PlaceOffset(specs: seq<TensorSpec>, cursor: int, i: nat)
    requires i < |specs|
    ensures Place(specs, cursor)[i].offset == RoundUp(cursor) + PaddedBytes(specs[..i])
    decreases i
  {
    if i == 0 {
      assert specs[..0] == [];
    } else {
      PlaceOffset(specs[1..], Align(cursor) + specs[0].byteLength, i - 1);
      assert specs[..i][1..] == specs[1..][..i - 1];
      RoundAfter(cursor, specs[0].byteLength);
    }
  }

  lemma RoundAfter(cursor: int, n: int)
    ensures Align(cursor) == RoundUp(cursor)
    ensures RoundUp(RoundUp(cursor) + n) == RoundUp(cursor) + RoundUp(n)
  {
  }

  lemma {:induction false} PaddedGrows(specs: seq<TensorSpec>, i: nat)
    requires AllValid(specs) && i < |specs|
    ensures 0 <= PaddedBytes(specs[..i]) <= PaddedBytes(specs[..|specs| - 1])
    decreases i
  {
    hide Validate;
    var n := |specs| - 1;
    PaddedIsPositive(specs[..n]);
    if i > 0 {
      PaddedGrows(specs[1..], i - 1);
      LengthOfValid(specs[0]);
      assert specs[..i][1..] == specs[1..][..i - 1] && specs[..n][1..] == specs[1..][..n - 1];
    }
  }

  lemma {:induction false} PaddedIsPositive(specs: seq<TensorSpec>)
    requires AllValid(specs)
    ensures PaddedBytes(specs) >= 0
  {
    hide Validate;
    if specs != [] {
      LengthOfValid(specs[0]);
      PaddedIsPositive(specs[1..]);
    }
  }

  // ---------------------------------------------------------------------------------------
  // The order of names
  // ---------------------------------------------------------------------------------------

  /** Up to `k` both names agree; there the first one ends or has the smaller code point. */
  predicate FirstDifference(a: Text, b: Text, k: int) {
    0 <= k < |b| && k <= |a| && a[..k] == b[..k] && (k == |a| || a[k] < b[k])
  }

  lemma DifferenceAfter(a: Text, b: Text, k: int)
    requires a != [] && b != [] && a[0] == b[0]
    ensures FirstDifference(a, b, k + 1) <==> FirstDifference(a[1..], b[1..], k)
  {
    if 0 <= k && k + 1 <= |a| && k + 1 <= |b| {
      assert a[..k + 1] == [a[0]] + a[1..][..k] && b[..k + 1] == [b[0]] + b[1..][..k];
    }
  }

  /** Names are in the order of their code points; a name comes before its extensions. */
  lemma {:induction false} LessExactly(a: Text, b: Text)
    ensures Less(a, b) <==> exists k :: FirstDifference(a, b, k)
  {
    forall k | FirstDifference(a, b, k) && k > 0
      ensures a != [] && b != [] && a[0] == b[0]
    {
      assert a[..k][0] == b[..k][0];
    }
    if a == [] || b == [] || a[0] != b[0] {
      assert Less(a, b) <==> FirstDifference(a, b, 0);
    } else {
      LessExactly(a[1..], b[1..]);
      hide FirstDifference;
      if k :| FirstDifference(a, b, k) {
        DifferenceAfter(a, b, k - 1);
      }
      if k :| FirstDifference(a[1..], b[1..], k) {
        DifferenceAfter(a, b, k);
        assert FirstDifference(a, b, k + 1);
      }
    }
  }

  // ---------------------------------------------------------------------------------------
  // Sorting keeps what is checked
  // ---------------------------------------------------------------------------------------

  /** No tensor has this name. */
  ghost predicate Absent(name: Text, specs: seq<TensorSpec>) {
    forall j :: 0 <= j < |specs| ==> specs[j].name != name
  }

  lemma PrependDistinct(head: TensorSpec, tail: seq<TensorSpec>)
    ensures Distinct([head] + tail) <==> Distinct(tail) && Absent(head.name, tail)
  {
    var r := [head] + tail;
    assert tail == r[1..];
    if Distinct(r) {
      forall j | 0 <= j < |tail|
        ensures tail[j].name != head.name
      {
        assert r[0].name != r[j + 1].name;
      }
    }
  }

  lemma InsertStep(s: TensorSpec, sorted: seq<TensorSpec>)
    requires sorted != [] && Less(sorted[0].name, s.name)
    ensures Insert(s, sorted) == [sorted[0]] + Insert(s, sorted[1..]) && sorted == [sorted[0]] + sorted[1..]
  {
    hide Less;
  }

  lemma {:induction false} InsertKeepsDistinct(s: TensorSpec, sorted: seq<TensorSpec>)
    ensures Distinct(Insert(s, sorted)) <==> Distinct([s] + sorted)
  {
    if sorted != [] && Less(sorted[0].name, s.name) {
      var head, tail := sorted[0], sorted[1..];
      InsertStep(s, sorted);
      hide *;
      InsertKeepsDistinct(s, tail);
      PrependDistinct(s, tail);
      PrependDistinct(s, sorted);
      PrependDistinct(head, Insert(s, tail));
      PrependDistinct(head, tail);
      AbsentFrom(Insert(s, tail), s, tail, head.name);
      AbsentFrom(sorted, head, tail, s.name);
    }
  }

  lemma AbsentFrom(t: seq<TensorSpec>, s: TensorSpec, tail: seq<TensorSpec>, name: Text)
    requires multiset(t) == multiset(tail) + multiset{s}
    ensures Absent(name, t) <==> s.name != name && Absent(name, tail)
  {
    assert s in multiset(t);
    assert forall j :: 0 <= j < |tail| ==> tail[j] in multiset(t);
    forall j | 0 <= j < |t|
      ensures t[j] == s || t[j] in tail
    {
      assert t[j] in multiset(t);
    }
  }

  lemma {:induction false} SortedKeepsDistinct(specs: seq<TensorSpec>)
    ensures Distinct(Sorted(specs)) <==> Distinct(specs)
  {
    if specs != [] {
      var head, tail := specs[0], specs[1..];
      assert specs == [head] + tail && Sorted(specs) == Insert(head, Sorted(tail));
      hide *;
      SortedKeepsDistinct(tail);
      InsertKeepsDistinct(head, Sorted(tail));
      PrependDistinct(head, Sorted(tail));
      PrependDistinct(head, tail);
      AbsentKept(Sorted(tail), tail, head.name);
    }
  }

  lemma AbsentKept(a: seq<TensorSpec>, b: seq<TensorSpec>, name: Text)
    requires multiset(a) == multiset(b)
    ensures Absent(name, a) <==> Absent(name, b)
  {
    SameMembers(a, b);
    assert forall j :: 0 <= j < |a| ==> a[j] in b;
    assert forall j :: 0 <= j < |b| ==> b[j] in a;
  }

  lemma SameMembers(a: seq<TensorSpec>, b: seq<TensorSpec>)
    requires multiset(a) == multiset(b)
    ensures forall s :: s in a <==> s in b
    ensures a == [] <==> b == []
  {
    forall s
      ensures s in a <==> s in b
    {
      assert s in a <==> s in multiset(a);
      assert s in b <==> s in multiset(b);
    }
    assert |multiset(a)| == |a| && |multiset(b)| == |b|;
  }

  // ---------------------------------------------------------------------------------------
  // Acceptance
  // ---------------------------------------------------------------------------------------

  /**
   Tensors are accepted, in whatever order they come, exactly when there are some, but no more than
   a 32-bit count; when each fits by itself; when names differ; and when the last payload in name
   order starts below 2^64.
   */
  lemma LayoutAccepts(tensors: seq<TensorSpec>)
    ensures Layout(tensors).Ok?
       <==> && 0 < |tensors| < 0x1_0000_0000
            && (forall i :: 0 <= i < |tensors| ==> FieldsFit(tensors[i]))
            && (forall i, j :: 0 <= i < j < |tensors| ==> tensors[i].name != tensors[j].name)
            && OffsetOf(Sorted(tensors), |tensors| - 1) < 0x1_0000_0000_0000_0000
  {
    var sorted := Sorted(tensors);
    assert |sorted| == |tensors|;
    SortedKeepsDistinct(tensors);
    SameMembers(sorted, tensors);
    LayoutIs(tensors, sorted, DataStart(sorted));
    DistinctIs(tensors);
    hide *;
    if sorted != [] {
      AllFitIs(tensors, sorted);
      if AllValid(sorted) {
        PacksExactly(sorted, DataStart(sorted));
      }
    }
  }

  lemma DistinctIs(specs: seq<TensorSpec>)
    ensures Distinct(specs) <==> forall i, j :: 0 <= i < j < |specs| ==> specs[i].name != specs[j].name
  {
  }

  lemma LayoutIs(tensors: seq<TensorSpec>, sorted: seq<TensorSpec>, dataStart: nat)
    requires sorted == Sorted(tensors) && dataStart == DataStart(sorted)
    ensures Layout(tensors).Ok?
       <==> sorted != [] && AllValid(sorted) && Distinct(sorted) && Packs(Place(sorted, dataStart), dataStart)
  {
    CheckAllAccepts(sorted);
    hide Sorted, CheckAll, Place, Validate, AllValid, Distinct, Packs, EntriesBytes, DataStart;
  }

  /** Fields a spec keeps wherever it is placed. */
  ghost predicate SizesFit(specs: seq<TensorSpec>) {
    forall i :: 0 <= i < |specs| ==> SizeFits(specs[i])
  }

  predicate SizeFits(s: TensorSpec) {
    s.byteLength < U64_LIMIT && forall j :: 0 <= j < |s.shape| ==> s.shape[j] < U64_LIMIT
  }

  lemma FieldsFitIs(s: TensorSpec)
    ensures FieldsFit(s) <==> Valid(s) && SizeFits(s)
  {
    hide Encode, Encodable;
  }

  lemma AllFitIs(tensors: seq<TensorSpec>, sorted: seq<TensorSpec>)
    requires forall s :: s in sorted <==> s in tensors
    ensures (forall i :: 0 <= i < |tensors| ==> FieldsFit(tensors[i])) <==> AllValid(sorted) && SizesFit(sorted)
  {
    hide Validate, Valid, FieldsFit, SizeFits;
    forall s: TensorSpec
      ensures FieldsFit(s) <==> Valid(s) && SizeFits(s)
    {
      FieldsFitIs(s);
    }
    assert (forall i :: 0 <= i < |tensors| ==> FieldsFit(tensors[i])) <==> forall s :: s in sorted ==> FieldsFit(s);
  }

  /** What `Place` does to each spec, in terms of the written-out sums. */
  lemma PlacedAt(sorted: seq<TensorSpec>, dataStart: nat, i: nat)
    requires i < |sorted| && dataStart == DataStart(sorted)
    ensures Place(sorted, dataStart)[i] == sorted[i].(offset := OffsetOf(sorted, i))
    ensures dataStart == OffsetOf(sorted, 0)
  {
    PlaceOffset(sorted, dataStart, i);
    IndexBytesIs(sorted);
    RoundAfter(IndexSize(sorted), 0);
    assert sorted[..0] == [];
    hide IndexSize, IndexBytes, RoundUp, Align, Place;
  }

  lemma PacksExactly(sorted: seq<TensorSpec>, dataStart: nat)
    requires AllValid(sorted) && sorted != [] && dataStart == DataStart(sorted)
    ensures Packs(Place(sorted, dataStart), dataStart)
       <==> && |sorted| < 0x1_0000_0000 && SizesFit(sorted)
            && OffsetOf(sorted, |sorted| - 1) < 0x1_0000_0000_0000_0000
  {
    var placed := Place(sorted, dataStart);
    var n := |sorted| - 1;
    hide Place, DataStart, Validate;
    forall i | 0 <= i <= n
      ensures placed[i] == sorted[i].(offset := OffsetOf(sorted, i))
      ensures dataStart <= OffsetOf(sorted, i) <= OffsetOf(sorted, n)
    {
      PlacedAt(sorted, dataStart, i);
      PaddedGrows(sorted, i);
      assert sorted[..0] == [];
    }
    hide OffsetOf;
    assert EntryPacks(placed[n]) ==> OffsetOf(sorted, n) < U64_LIMIT;
  }

  /** Each of the two names of a pair of tensors, and nothing before them. */
  lemma PairIsChecked(s: TensorSpec)
    requires Valid(s)
    ensures Layout([s, s]) == Err(DuplicateKey)
  {
    LessTotal(s.name, s.name);
    OneIsPlaced(s);
    assert [s, s][1..] == [s];
    assert Sorted([s, s]) == Insert(s, [s]) == [s] + [s] == [s, s];
    OneIsChecked(s);
    assert [s, s][..1] == [s];
    hide Validate;
    assert [s, s][0].name == [s, s][1].name;
    assert CheckAll([s, s]) == Err(DuplicateKey);
  }

  /** The error of a single tensor is that of the layout. */
  lemma ComplaintOfOne(s: TensorSpec, e: Error)
    requires Validate(s) == Err(e)
    ensures Layout([s]) == Err(e)
  {
    OneIsPlaced(s);
    hide Validate;
    assert [s][..0] == [];
    assert CheckAll([]) == Ok(());
    assert CheckAll([s]) == Err(e);
  }

  /** A tensor that fits, spoilt in one field: which error is raised for which field. */
  lemma Complaints(s: TensorSpec, tag: int, length: int, i: nat)
    requires FieldsFit(s)
    ensures Layout([]) == Err(EmptyArchive) && Layout([s, s]) == Err(DuplicateKey)
    ensures tag < 0 || tag >= 18 ==> Layout([s.(dtypeTag := tag)]) == Err(UnsupportedDtype)
    ensures Layout([s.(name := [])]) == Err(InvalidName) && Layout([s.(name := s.name + [0])]) == Err(InvalidName)
    ensures Layout([s.(name := s.name + [0xD800])]) == Err(NameNotEncodable)
    ensures Layout([s.(shape := seq(256, _ => 1))]) == Err(RankTooLarge)
    ensures i < |s.shape| ==> Layout([s.(shape := s.shape[i := -1])]) == Err(NegativeDimension)
    ensures length <= 0 ==> Layout([s.(byteLength := length)]) == Err(NoBytes)
  {
    FieldsFitIs(s);
    PairIsChecked(s);
    FieldComplaints(s, tag, length, i);
    hide Validate, FieldsFit;
    if tag < 0 || tag >= 18 {
      ComplaintOfOne(s.(dtypeTag := tag), UnsupportedDtype);
    }
    ComplaintOfOne(s.(name := []), InvalidName);
    ComplaintOfOne(s.(name := s.name + [0]), InvalidName);
    ComplaintOfOne(s.(name := s.name + [0xD800]), NameNotEncodable);
    ComplaintOfOne(s.(shape := seq(256, _ => 1)), RankTooLarge);
    if i < |s.shape| {
      ComplaintOfOne(s.(shape := s.shape[i := -1]), NegativeDimension);
    }
    if length <= 0 {
      ComplaintOfOne(s.(byteLength := length), NoBytes);
    }
    assert Sorted([]) == [];
    hide *;
  }

  lemma FieldComplaints(s: TensorSpec, tag: int, length: int, i: nat)
    requires FieldsFit(s)
    ensures tag < 0 || tag >= 18 ==> Validate(s.(dtypeTag := tag)) == Err(UnsupportedDtype)
    ensures Validate(s.(name := [])) == Err(InvalidName) && Validate(s.(name := s.name + [0])) == Err(InvalidName)
    ensures Validate(s.(name := s.name + [0xD800])) == Err(NameNotEncodable)
    ensures Validate(s.(shape := seq(256, _ => 1))) == Err(RankTooLarge)
    ensures i < |s.shape| ==> Validate(s.(shape := s.shape[i := -1])) == Err(NegativeDimension)
    ensures length <= 0 ==> Validate(s.(byteLength := length)) == Err(NoBytes)
  {
    hide Encode;
    var lone: CodePoint := 0xD800;
    var surrogate := s.name + [lone];
    assert surrogate[|s.name|] == lone;
    assert !Encodable(surrogate);
    assert 0 !in surrogate;
    if i < |s.shape| {
      assert s.shape[i := -1][i] < 0;
    }
  }

  /** Payload `i` in name order starts behind the rounded index and the rounded payloads before it. */
  lemma OffsetExactly(tensors: seq<TensorSpec>, i: nat)
    requires Layout(tensors).Ok? && i < |tensors|
    ensures var (header, placed) := Layout(tensors).value;
            && |placed| == |tensors| && placed[i] == Sorted(tensors)[i].(offset := OffsetOf(Sorted(tensors), i))
            && |header| == OffsetOf(Sorted(tensors), 0)
  {
    LayoutParts(tensors);
    hide Layout, DataStart, Sorted;
    PlacedAt(Sorted(tensors), DataStart(Sorted(tensors)), i);
    hide *;
  }

  // ---------------------------------------------------------------------------------------
  // ---------------------------------------------------------------------------------------
  // One archive
  // ---------------------------------------------------------------------------------------

  /** A tensor `aé` of two dimensions and five bytes. */
  function Sample(tag: int): TensorSpec {
    TensorSpec([97, 233], tag, [2, 300], 5, 0)
  }

  /** The letters LLMOPTWT, version 1, flags 0, the number of tensors and where the payloads start. */
  function SamplePrefix(): Bytes {
    [76, 76, 77, 79, 80, 84, 87, 84] + [1, 0] + [0, 0] + [1, 0, 0, 0] + [0, 1, 0, 0, 0, 0, 0, 0]
  }

  /** The length of the name, the tag, the rank and two zeros; the name; the dimensions; offset and length. */
  function SampleEntry(tag: Byte): Bytes {
    [3, 0, 0, 0] + [tag, 2, 0, 0] + [97, 0xC3, 0xA9] + ([2, 0, 0, 0, 0, 0, 0, 0] + [44, 1, 0, 0, 0, 0, 0, 0])
    + [0, 1, 0, 0, 0, 0, 0, 0] + [5, 0, 0, 0, 0, 0, 0, 0]
  }

  lemma Words()
    ensures Little(2, 0) == [0, 0] && Little(2, 1) == [1, 0]
    ensures Little(4, 1) == [1, 0, 0, 0] && Little(4, 3) == [3, 0, 0, 0]
  {
    assert Little(3, 0) == [0] + Little(2, 0);
  }

  lemma LongWord(low: Byte, high: Byte)
    ensures Little(8, 256 * high + low) == [low, high, 0, 0, 0, 0, 0, 0]
  {
    ZeroWord();
    assert Little(8, 256 * high + low) == [low] + Little(7, high) && Little(7, high) == [high] + Little(6, 0);
  }

  lemma ZeroWord()
    ensures Little(6, 0) == [0, 0, 0, 0, 0, 0]
  {
    assert Little(3, 0) == [0, 0, 0];
    assert Little(6, 0) == [0] + Little(5, 0) && Little(5, 0) == [0] + Little(4, 0) && Little(4, 0) == [0] + Little(3, 0);
  }

  lemma SampleName()
    ensures Encode([97, 233]) == [97, 0xC3, 0xA9]
  {
    assert [97, 233][1..] == [233];
    assert Encode([233]) == [0xC3, 0xA9] + Encode([]);
  }

  lemma SampleIsValid(tag: int)
    requires 0 <= tag < 18
    ensures Valid(Sample(tag))
  {
    SampleName();
    hide Encode;
    assert [97, 233][0] == 97 && [97, 233][1] == 233;
  }

  lemma FirstDimension(d: nat, rest: seq<int>, m: nat)
    requires d < U64_LIMIT && m == d % U64_LIMIT
    ensures m == d && DimensionBytes([d] + rest) == Little(8, m) + DimensionBytes(rest)
  {
    hide Little;
    assert ([d] + rest)[1..] == rest;
  }

  lemma NoDimensions()
    ensures DimensionBytes([]) == []
  {
  }

  lemma SampleShape()
    ensures DimensionBytes([2, 300]) == [2, 0, 0, 0, 0, 0, 0, 0] + [44, 1, 0, 0, 0, 0, 0, 0]
  {
    LongWord(2, 0);
    LongWord(44, 1);
    FirstDimension(300, [], 300 % U64_LIMIT);
    FirstDimension(2, [300], 2 % U64_LIMIT);
    NoDimensions();
    hide Little, DimensionBytes;
    assert [300] + [] == [300] && [2] + [300] == [2, 300];
    hide *;
  }

  lemma SampleEntryIs(tag: Byte)
    requires tag < 18 && Valid(Sample(tag).(offset := 256))
    ensures EntryBytes(Sample(tag).(offset := 256)) == SampleEntry(tag)
  {
    SampleName();
    SampleShape();
    Words();
    LongWord(0, 1);
    LongWord(5, 0);
    hide Little, Encode, DimensionBytes, Validate;
  }

  lemma OneIsPlaced(s: TensorSpec)
    ensures Sorted([s]) == [s]
    ensures Place([s], 256) == [s.(offset := 256)]
  {
    assert [s][1..] == [];
    assert Sorted([s]) == Insert(s, []);
  }

  lemma OneIsChecked(s: TensorSpec)
    requires Valid(s)
    ensures CheckAll([s]).Ok?
  {
    CheckAllAccepts([s]);
  }

  /** What the layout of one tensor is when its index takes up `n` bytes, no more than a boundary. */
  lemma LayoutOfOne(s: TensorSpec, n: nat)
    requires FieldsFit(s) && Valid(s) && Valid(s.(offset := 256)) && n == IndexSize([s]) && 0 < n <= 256
    ensures IndexSize([s.(offset := 256)]) == n
    ensures Layout([s]) == Ok((Header([s.(offset := 256)], 256), [s.(offset := 256)]))
  {
    OneIsPlaced(s);
    OneIsChecked(s);
    hide Validate, Header, Sorted, Place, CheckAll, Encode, Encodable;
    assert DataStart([s]) == 256;
    assert IndexSize([s]) == EntrySize(s) + IndexSize([]);
    assert IndexSize([s.(offset := 256)]) == EntrySize(s.(offset := 256)) + IndexSize([]);
  }

  lemma SampleHeader(tag: Byte, p: TensorSpec)
    requires tag < 18 && p == Sample(tag).(offset := 256) && Valid(p) && IndexSize([p]) == 67
    ensures Header([p], 256) == SamplePrefix() + SampleEntry(tag) + Zeros(189)
  {
    SampleEntryIs(tag);
    Words();
    LongWord(0, 1);
    hide Little, Validate, EntryBytes, Sample, SampleEntry, Zeros, IndexSize;
    assert PrefixBytes(1, 256) == SamplePrefix();
    assert [p][1..] == [];
    assert EntriesBytes([p]) == EntryBytes(p) + [];
  }

  /** An archive of one tensor: prefix, entry, and zeros up to the first boundary. */
  lemma WholeHeader(tag: Byte)
    requires tag < 18
    ensures Layout([Sample(tag)])
         == Ok((SamplePrefix() + SampleEntry(tag) + Zeros(256 - 24 - 43), [Sample(tag).(offset := 256)]))
  {
    SampleIsValid(tag);
    SampleSize(tag);
    hide *;
    LayoutOfOne(Sample(tag), 67);
    SampleHeader(tag, Sample(tag).(offset := 256));
  }

  lemma SampleSize(tag: int)
    requires 0 <= tag < 18 && Valid(Sample(tag))
    ensures IndexSize([Sample(tag)]) == 67 && FieldsFit(Sample(tag)) && Valid(Sample(tag).(offset := 256))
  {
    SampleName();
    hide Encode;
    assert [97, 233][0] == 97 && [97, 233][1] == 233;
    assert IndexSize([Sample(tag)]) == EntrySize(Sample(tag)) + IndexSize([]);
  }
}
