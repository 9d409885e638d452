/**
 `_layout` with its loops and its internal assertion, and `write_payloads`, which streams payload
 chunks into a temporary file and replaces the destination only when every tensor is complete.
 */
module ArchiveIo {
  import opened Bytes
  import opened Results
  import opened Utf8
  import opened TensorArchive

  // ---------------------------------------------------------------------------------------
  // The layout loops
  // ---------------------------------------------------------------------------------------

  lemma {:induction false} CheckPrefix(specs: seq<TensorSpec>, n: nat)
    requires n <= |specs|
    ensures CheckAll(specs[..n]).Err? ==> CheckAll(specs) == CheckAll(specs[..n])
    decreases |specs|
  {
    hide Validate;
    if n < |specs| {
      CheckPrefix(specs[..|specs| - 1], n);
      assert specs[..|specs| - 1][..n] == specs[..n];
    } else {
      assert specs[..n] == specs;
    }
  }

  lemma CheckSnoc(specs: seq<TensorSpec>, n: nat)
    requires n < |specs| && CheckAll(specs[..n]).Ok?
    ensures CheckAll(specs[..n + 1])
         == if Validate(specs[n]).Err? then Err(Validate(specs[n]).error)
            else if exists i :: 0 <= i < n && specs[i].name == specs[n].name then Err(DuplicateKey)
            else Ok(())
  {
    hide Validate;
    var s := specs[..n + 1];
    assert s[..n] == specs[..n] && s[n] == specs[n];
    assert forall i :: 0 <= i < n ==> s[i] == specs[i];
  }

  /** The checking loop, with the index size it counts along the way. */
  method CheckAndMeasure(specs: seq<TensorSpec>) returns (r: Result<nat, Error>)
    ensures r.Ok? ==> CheckAll(specs).Ok? && r.value == IndexSize(specs)
    ensures r.Err? ==> CheckAll(specs) == Err(r.error)
  {
    hide Validate, CheckAll, EntrySize;
    assert specs[..0] == [] && specs[0..] == specs;
    NothingToCheck();
    var names: set<Text> := {};
    var indexBytes := PREFIX_BYTES;
    for n := 0 to |specs|
      invariant CheckAll(specs[..n]).Ok?
      invariant forall name :: name in names <==> exists i :: 0 <= i < n && specs[i].name == name
      invariant indexBytes + IndexSize(specs[n..]) == IndexSize(specs) + PREFIX_BYTES
    {
      CheckSnoc(specs, n);
      CheckPrefix(specs, n + 1);
      var check := Validate(specs[n]);
      if check.Err? {
        return Err(check.error);
      }
      if specs[n].name in names {
        return Err(DuplicateKey);
      }
      names := names + {specs[n].name};
      assert specs[n..][1..] == specs[n + 1..];
      indexBytes := indexBytes + EntrySize(specs[n]);
    }
    assert specs[..|specs|] == specs;
    r := Ok(indexBytes);
  }

  lemma NothingToCheck()
    ensures CheckAll([]).Ok? && IndexSize([]) == PREFIX_BYTES
  {
  }

  /** The placing loop: a cursor that is rounded up before each tensor. */
  method PlaceAll(sorted: seq<TensorSpec>, dataStart: int) returns (specs: seq<TensorSpec>)
    ensures specs == Place(sorted, dataStart)
  {
    hide Place, Align, Placed;
    StartPlacing(sorted, dataStart);
    var cursor := dataStart;
    specs := [];
    for n := 0 to |sorted|
      invariant Placed(sorted, dataStart, n, cursor, specs)
    {
      ghost var before, from := specs, cursor;
      cursor := Align(cursor);
      specs := specs + [sorted[n].(offset := cursor)];
      cursor := cursor + sorted[n].byteLength;
      PlaceOneMore(sorted, dataStart, n, from, before);
    }
    DonePlacing(sorted, dataStart, cursor, specs);
  }

  ghost predicate Placed(sorted: seq<TensorSpec>, dataStart: int, n: nat, cursor: int, specs: seq<TensorSpec>)
    requires n <= |sorted|
  {
    specs + Place(sorted[n..], cursor) == Place(sorted, dataStart)
  }

  lemma StartPlacing(sorted: seq<TensorSpec>, dataStart: int)
    ensures Placed(sorted, dataStart, 0, dataStart, [])
  {
    hide Place;
    assert sorted[0..] == sorted;
  }

  lemma PlaceOneMore(sorted: seq<TensorSpec>, dataStart: int, n: nat, cursor: int, specs: seq<TensorSpec>)
    requires n < |sorted| && Placed(sorted, dataStart, n, cursor, specs)
    ensures Placed(sorted, dataStart, n + 1, Align(cursor) + sorted[n].byteLength,
                   specs + [sorted[n].(offset := Align(cursor))])
  {
    PlaceNext(sorted, n, cursor);
    hide Place, Align;
    var x, tail := [sorted[n].(offset := Align(cursor))], Place(sorted[n + 1..], Align(cursor) + sorted[n].byteLength);
    assert specs + (x + tail) == (specs + x) + tail;
  }

  lemma DonePlacing(sorted: seq<TensorSpec>, dataStart: int, cursor: int, specs: seq<TensorSpec>)
    requires Placed(sorted, dataStart, |sorted|, cursor, specs)
    ensures specs == Place(sorted, dataStart)
  {
    PlaceNext(sorted, |sorted|, cursor);
  }

  lemma PlaceNext(sorted: seq<TensorSpec>, n: nat, cursor: int)
    requires n <= |sorted|
    ensures Place(sorted[n..], cursor)
         == if n == |sorted| then []
            else [sorted[n].(offset := Align(cursor))] + Place(sorted[n + 1..], Align(cursor) + sorted[n].byteLength)
  {
    if n < |sorted| {
      assert sorted[n..][1..] == sorted[n + 1..];
    }
  }

  method PackIndex(specs: seq<TensorSpec>, prefix: Bytes) returns (r: Result<Bytes, Error>)
    requires AllValid(specs)
    ensures r == if forall i :: 0 <= i < |specs| ==> EntryPacks(specs[i]) then Ok(prefix + EntriesBytes(specs))
                 else Err(DoesNotPack)
  {
    hide Validate, EntriesBytes, EntryBytes, EntryPacks, EntrySize, IndexSize;
    var header := prefix;
    assert specs[0..] == specs;
    for n := 0 to |specs|
      invariant forall i :: 0 <= i < n ==> EntryPacks(specs[i])
      invariant header + EntriesBytes(specs[n..]) == prefix + EntriesBytes(specs)
    {
      EntriesNext(specs, n);
      if !EntryPacks(specs[n]) {
        return Err(DoesNotPack);
      }
      ghost var before, tail := header, EntriesBytes(specs[n + 1..]);
      header := header + EntryBytes(specs[n]);
      assert before + (EntryBytes(specs[n]) + tail) == header + tail;
    }
    EntriesNext(specs, |specs|);
    assert header + [] == header;
    r := Ok(header);
  }

  lemma EntriesNext(specs: seq<TensorSpec>, n: nat)
    requires n <= |specs| && AllValid(specs)
    ensures AllValid(specs[n..])
    ensures n < |specs| ==> AllValid(specs[n + 1..]) && Valid(specs[n])
    ensures EntriesBytes(specs[n..]) == if n == |specs| then [] else EntryBytes(specs[n]) + EntriesBytes(specs[n + 1..])
  {
    hide Validate, EntryBytes, EntrySize;
    if n < |specs| {
      assert specs[n..][1..] == specs[n + 1..];
    }
  }

  /** `_layout`; its assertion that the index stays inside its padding can never fire. */
  method LayoutArchive(tensors: seq<TensorSpec>) returns (r: Result<(Bytes, seq<TensorSpec>), Error>)
    ensures r == Layout(tensors)
    ensures r != Err(LayoutOverflowed)
  {
    hide Validate, Place, EntriesBytes, CheckAll, Sorted, IndexSize, Align, EntryPacks, PrefixBytes;
    var sorted := Sorted(tensors);
    if sorted == [] {
      return Err(EmptyArchive);
    }
    var size := CheckAndMeasure(sorted);
    if size.Err? {
      NeverOverflows(sorted);
      return Err(size.error);
    }
    var dataStart := Align(size.value);
    CheckAllAccepts(sorted);
    PlacedAreValid(sorted, dataStart);
    var specs := PlaceAll(sorted, dataStart);
    if |specs| >= U32_LIMIT || dataStart >= U64_LIMIT {
      return Err(DoesNotPack);
    }
    var packed := PackIndex(specs, PrefixBytes(|specs|, dataStart));
    if packed.Err? {
      return Err(DoesNotPack);
    }
    var header := packed.value;
    if |header| > dataStart {
      return Err(LayoutOverflowed);
    }
    header := header + Zeros(dataStart - |header|);
    r := Ok((header, specs));
  }

  lemma {:induction false} NeverOverflows(specs: seq<TensorSpec>)
    ensures CheckAll(specs) != Err(LayoutOverflowed)
  {
    if specs != [] {
      NeverOverflows(specs[..|specs| - 1]);
    }
  }

  // ---------------------------------------------------------------------------------------
  // Streams and files
  // ---------------------------------------------------------------------------------------

  /** What iterating over `chunks(name)` gives: some chunks, and then the end or an exception. */
  datatype Stream = Stream(chunks: seq<Bytes>, raises: bool)

  function Concat(chunks: seq<Bytes>): Bytes {
    if chunks == [] then [] else chunks[0] + Concat(chunks[1..])
  }

  /** The stream delivers exactly the bytes its tensor declares. */
  predicate Complete(s: TensorSpec, stream: Stream) {
    !stream.raises && |Concat(stream.chunks)| == s.byteLength
  }

  /** Files by path. */
  class Files {
    var contents: map<string, Bytes>

    constructor (initial: map<string, Bytes>)
      ensures contents == initial
    {
      contents := initial;
    }
  }

  /** The archive so far, followed for each further tensor by padding up to its offset and its payload. */
  function Image(written: Bytes, specs: seq<TensorSpec>, chunks: Text -> Stream): Bytes
    decreases |specs|
  {
    if specs == [] then written
    else
      var s := specs[0];
      var pad := if s.offset >= |written| then s.offset - |written| else 0;
      Image(written + Zeros(pad) + Concat(chunks(s.name).chunks), specs[1..], chunks)
  }

  ghost predicate AllComplete(specs: seq<TensorSpec>, chunks: Text -> Stream) {
    forall i :: 0 <= i < |specs| ==> Complete(specs[i], chunks(specs[i].name))
  }

  datatype Summary = Summary(tensorCount: nat, indexBytes: nat, dataBytes: int, paddingBytes: int, fileBytes: int)

  function DataBytes(specs: seq<TensorSpec>): int {
    if specs == [] then 0 else specs[0].byteLength + DataBytes(specs[1..])
  }

  /** The bytes the streams of `specs` deliver. */
  function Streamed(specs: seq<TensorSpec>, chunks: Text -> Stream): nat {
    if specs == [] then 0 else |Concat(chunks(specs[0].name).chunks)| + Streamed(specs[1..], chunks)
  }

  lemma {:induction false} DataIsStreamed(specs: seq<TensorSpec>, chunks: Text -> Stream)
    requires AllComplete(specs, chunks)
    ensures DataBytes(specs) == Streamed(specs, chunks)
  {
    hide Concat;
    if specs != [] {
      assert Complete(specs[0], chunks(specs[0].name));
      DataIsStreamed(specs[1..], chunks);
    }
  }

  // ---------------------------------------------------------------------------------------
  // Writing
  // ---------------------------------------------------------------------------------------

  /** Writes the chunks of one tensor behind `path`'s contents, refusing to run past its end. */
  method StreamPayload(files: Files, path: string, s: TensorSpec, stream: Stream) returns (r: Result<(), Error>)
    requires path in files.contents && |files.contents[path]| == s.offset
    modifies files
    ensures files.contents.Keys == old(files.contents.Keys)
    ensures forall p :: p in files.contents && p != path ==> files.contents[p] == old(files.contents)[p]
    ensures r.Ok? <==> Complete(s, stream)
    ensures r.Ok? ==> files.contents[path] == old(files.contents)[path] + Concat(stream.chunks)
    ensures r != Err(LayoutOverflowed)
  {
    ghost var start := files.contents[path];
    for n := 0 to |stream.chunks|
      invariant files.contents.Keys == old(files.contents.Keys)
      invariant forall p :: p in files.contents && p != path ==> files.contents[p] == old(files.contents)[p]
      invariant |files.contents[path]| <= s.offset + s.byteLength || n == 0
      invariant files.contents[path] + Concat(stream.chunks[n..]) == start + Concat(stream.chunks)
    {
      var data := stream.chunks[n];
      assert stream.chunks[n..][1..] == stream.chunks[n + 1..];
      ghost var before := files.contents[path];
      if |files.contents[path]| + |data| > s.offset + s.byteLength {
        return Err(PayloadExceeds);
      }
      files.contents := files.contents[path := files.contents[path] + data];
      assert before + (data + Concat(stream.chunks[n + 1..])) == files.contents[path] + Concat(stream.chunks[n + 1..]);
    }
    if stream.raises {
      return Err(StreamRaised);
    }
    if |files.contents[path]| != s.offset + s.byteLength {
      return Err(PayloadShort);
    }
    r := Ok(());
  }

  /** The writing loop; its assertion that a payload never starts before the cursor cannot fire. */
  method WriteAll(files: Files, path: string, specs: seq<TensorSpec>,
                  chunks: Text -> Stream) returns (r: Result<(), Error>)
    requires path in files.contents && AllValid(specs) && Tight(specs, |files.contents[path]|)
    modifies files
    ensures files.contents.Keys == old(files.contents.Keys)
    ensures forall p :: p in files.contents && p != path ==> files.contents[p] == old(files.contents)[p]
    ensures r.Ok? <==> AllComplete(specs, chunks)
    ensures r.Ok? ==> files.contents[path] == Image(old(files.contents)[path], specs, chunks)
    ensures r != Err(LayoutOverflowed)
  {
    hide Validate, Concat, Tight;
    ghost var start := files.contents[path];
    assert specs[0..] == specs;
    for n := 0 to |specs|
      invariant files.contents.Keys == old(files.contents.Keys)
      invariant forall p :: p in files.contents && p != path ==> files.contents[p] == old(files.contents)[p]
      invariant forall i :: 0 <= i < n ==> Complete(specs[i], chunks(specs[i].name))
      invariant |files.contents[path]| == EndBefore(specs, |start|, n)
      invariant Image(files.contents[path], specs[n..], chunks) == Image(start, specs, chunks)
    {
      var s := specs[n];
      TightAt(specs, |start|, n);
      assert specs[n..][1..] == specs[n + 1..];
      var position := |files.contents[path]|;
      if position > s.offset {
        return Err(LayoutOverflowed);
      }
      files.contents := files.contents[path := files.contents[path] + Zeros(s.offset - position)];
      var done := StreamPayload(files, path, s, chunks(s.name));
      if done.Err? {
        return Err(done.error);
      }
    }
    r := Ok(());
  }

  lemma TightAt(specs: seq<TensorSpec>, start: int, n: nat)
    requires Tight(specs, start) && n < |specs|
    ensures specs[n].offset >= EndBefore(specs, start, n)
  {
  }

  /**
   `write_payloads`. Whatever the streams do, the files are either exactly as before or differ in
   the destination alone; `temporary` is the fresh name that `mkstemp` returned.
   */
  method WritePayloads(files: Files, tensors: seq<TensorSpec>, destination: string, temporary: string,
                       chunks: Text -> Stream)
    returns (r: Result<Summary, Error>)
    requires temporary !in files.contents && temporary != destination
    modifies files
    ensures r.Ok? <==> Layout(tensors).Ok? && AllComplete(Layout(tensors).value.1, chunks)
    ensures r.Err? ==> files.contents == old(files.contents)
    ensures r.Ok? ==> var (header, specs) := Layout(tensors).value;
                      var image := Image(header, specs, chunks);
                      && files.contents == old(files.contents)[destination := image]
                      && r.value.tensorCount == |tensors| && r.value.indexBytes == |header|
                      && r.value.dataBytes == Streamed(specs, chunks) && r.value.fileBytes == |image|
                      && r.value.paddingBytes == |image| - |header| - Streamed(specs, chunks)
    ensures r != Err(LayoutOverflowed)
  {
    var layout := LayoutArchive(tensors);
    if layout.Err? {
      return Err(layout.error);
    }
    var (header, specs) := layout.value;
    LayoutGeometry(tensors);
    ArrangesLength(specs, tensors);
    hide *;
    ghost var before := files.contents;
    files.contents := files.contents[temporary := header];
    var written := WriteAll(files, temporary, specs, chunks);
    WithoutTemporary(before, files.contents, temporary);
    if written.Err? {
      files.contents := files.contents - {temporary};
      return Err(written.error);
    }
    LastEnd(specs, |header|);
    ImageLength(header, specs, chunks);
    DataIsStreamed(specs, chunks);
    var image := files.contents[temporary];
    files.contents := files.contents - {temporary};
    files.contents := files.contents[destination := image];
    var dataBytes := DataBytes(specs);
    var fileBytes := specs[|specs| - 1].offset + specs[|specs| - 1].byteLength;
    r := Ok(Summary(|specs|, |header|, dataBytes, fileBytes - |header| - dataBytes, fileBytes));
  }

  lemma WithoutTemporary(before: map<string, Bytes>, after: map<string, Bytes>, temporary: string)
    requires temporary !in before && after.Keys == before.Keys + {temporary}
    requires forall p :: p in after && p != temporary ==> after[p] == before[temporary := after[temporary]][p]
    ensures after - {temporary} == before
  {
    var rest := after - {temporary};
    assert rest.Keys == before.Keys;
  }

  lemma ArrangesLength(specs: seq<TensorSpec>, tensors: seq<TensorSpec>)
    requires Arranges(specs, tensors)
    ensures |specs| == |tensors|
  {
  }

  lemma LastEnd(specs: seq<TensorSpec>, start: int)
    requires specs != []
    ensures EndBefore(specs, start, |specs|) == specs[|specs| - 1].offset + specs[|specs| - 1].byteLength
  {
  }

  // ---------------------------------------------------------------------------------------
  // What the finished file holds
  // ---------------------------------------------------------------------------------------

  lemma {:induction false} ImageLength(written: Bytes, specs: seq<TensorSpec>, chunks: Text -> Stream)
    requires AllComplete(specs, chunks) && Tight(specs, |written|)
    ensures |Image(written, specs, chunks)| == EndBefore(specs, |written|, |specs|)
    decreases |specs|
  {
    hide Concat;
    if specs != [] {
      var s := specs[0];
      TightAt(specs, |written|, 0);
      assert Complete(s, chunks(s.name));
      var next := written + Zeros(s.offset - |written|) + Concat(chunks(s.name).chunks);
      TightTail(specs, |written|, |next|);
      ImageLength(next, specs[1..], chunks);
    }
  }

  lemma TightTail(specs: seq<TensorSpec>, start: int, next: int)
    requires specs != [] && Tight(specs, start) && next == specs[0].offset + specs[0].byteLength
    ensures Tight(specs[1..], next)
    ensures EndBefore(specs, start, |specs|) == EndBefore(specs[1..], next, |specs| - 1)
  {
    var tail := specs[1..];
    forall i | 0 <= i < |tail|
      ensures 0 <= tail[i].offset - EndBefore(tail, next, i) < ALIGNMENT
    {
      assert EndBefore(tail, next, i) == EndBefore(specs, start, i + 1);
    }
  }

  lemma {:induction false} ImageExtends(written: Bytes, specs: seq<TensorSpec>, chunks: Text -> Stream)
    ensures written <= Image(written, specs, chunks)
    decreases |specs|
  {
    if specs != [] {
      var s := specs[0];
      var pad := if s.offset >= |written| then s.offset - |written| else 0;
      ImageExtends(written + Zeros(pad) + Concat(chunks(s.name).chunks), specs[1..], chunks);
    }
  }

  /** In the finished file each extent holds its stream, and every byte between extents is zero. */
  lemma {:induction false} ImageContents(written: Bytes, specs: seq<TensorSpec>, chunks: Text -> Stream, i: nat)
    requires AllComplete(specs, chunks) && Tight(specs, |written|) && i < |specs|
    ensures var image := Image(written, specs, chunks);
            var s := specs[i];
            && 0 <= EndBefore(specs, |written|, i) <= s.offset <= s.offset + s.byteLength <= |image|
            && image[s.offset..s.offset + s.byteLength] == Concat(chunks(s.name).chunks)
            && forall p :: EndBefore(specs, |written|, i) <= p < s.offset ==> image[p] == 0
    decreases |specs|
  {
    hide Concat, Tight, Image;
    var s := specs[0];
    TightAt(specs, |written|, 0);
    assert Complete(s, chunks(s.name));
    var padded, payload := written + Zeros(s.offset - |written|), Concat(chunks(s.name).chunks);
    var next := padded + payload;
    ImageNext(written, specs, chunks);
    TightTail(specs, |written|, |next|);
    var image := Image(written, specs, chunks);
    if i == 0 {
      ImageExtends(next, specs[1..], chunks);
      ExtentOfPrefix(image, written, s.offset - |written|, payload);
    } else {
      ImageContents(next, specs[1..], chunks, i - 1);
      assert EndBefore(specs, |written|, i) == EndBefore(specs[1..], |next|, i - 1);
    }
  }

  lemma ImageNext(written: Bytes, specs: seq<TensorSpec>, chunks: Text -> Stream)
    requires specs != [] && specs[0].offset >= |written|
    ensures Image(written, specs, chunks)
         == Image(written + Zeros(specs[0].offset - |written|) + Concat(chunks(specs[0].name).chunks), specs[1..], chunks)
  {
  }

  lemma ExtentOfPrefix(image: Bytes, written: Bytes, pad: nat, payload: Bytes)
    requires written + Zeros(pad) + payload <= image
    ensures var offset := |written| + pad;
            && image[offset..offset + |payload|] == payload
            && forall p :: |written| <= p < offset ==> image[p] == 0
  {
    var start := written + Zeros(pad) + payload;
    assert image[..|start|] == start;
    assert forall p :: |written| <= p < |written| + pad ==> image[p] == start[p] == Zeros(pad)[p - |written|];
  }

  /** How a payload is cut into chunks does not matter: streams with equal bytes give equal files. */
  lemma {:induction false} ChunkingIsIrrelevant(written: Bytes, specs: seq<TensorSpec>, a: Text -> Stream,
                                                b: Text -> Stream)
    requires forall i :: 0 <= i < |specs| ==>
               Concat(a(specs[i].name).chunks) == Concat(b(specs[i].name).chunks)
               && a(specs[i].name).raises == b(specs[i].name).raises
    ensures AllComplete(specs, a) <==> AllComplete(specs, b)
    ensures Image(written, specs, a) == Image(written, specs, b)
    decreases |specs|
  {
    hide Concat;
    forall i | 0 <= i < |specs|
      ensures Complete(specs[i], a(specs[i].name)) <==> Complete(specs[i], b(specs[i].name))
    {
    }
    if specs != [] {
      var s := specs[0];
      var pad := if s.offset >= |written| then s.offset - |written| else 0;
      assert forall i :: 0 <= i < |specs| - 1 ==> specs[1..][i] == specs[i + 1];
      ChunkingIsIrrelevant(written + Zeros(pad) + Concat(a(s.name).chunks), specs[1..], a, b);
    }
  }
}
