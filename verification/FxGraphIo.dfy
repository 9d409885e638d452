/**
 The writer and the reader of python/llmopt_backend/fx_graph.py as the stateful objects they are:
 one appends parts, the other moves a cursor over immutable bytes. A raised exception is an
 out-parameter that says so, after which the object is abandoned.
 */
module FxGraphIo {
  import opened Bytes
  import opened Results
  import opened Utf8
  import opened FxGraph

  function Join(parts: seq<Bytes>): Bytes {
    if parts == [] then [] else Join(parts[..|parts| - 1]) + parts[|parts| - 1]
  }

  lemma JoinAppend(parts: seq<Bytes>, part: Bytes)
    ensures Join(parts + [part]) == Join(parts) + part
  {
    assert (parts + [part])[..|parts|] == parts;
  }

  class Writer {
    var parts: seq<Bytes>

    constructor ()
      ensures Written() == []
    {
      parts := [];
    }

    ghost function Written(): Bytes
      reads this
    {
      Join(parts)
    }

    method Raw(value: Bytes)
      modifies this
      ensures Written() == old(Written()) + value
    {
      JoinAppend(parts, value);
      parts := parts + [value];
    }

    /** `struct.pack` of an unsigned integer: fails when the value needs more bytes. */
    method Unsigned(width: nat, value: int) returns (ok: bool)
      modifies this
      ensures ok <==> 0 <= value < Limit(width)
      ensures ok ==> Written() == old(Written()) + Little(width, value)
    {
      ok := 0 <= value < Limit(width);
      if ok {
        Raw(Little(width, value));
      }
    }

    method String(value: Text) returns (ok: bool)
      modifies this
      ensures ok <==> TextFits(value)
      ensures ok ==> Written() == old(Written()) + EncodeText(value)
    {
      Limits();
      ok := Encodable(value);
      if ok {
        ok := Unsigned(4, |Encode(value)|);
        if ok {
          Raw(Encode(value));
        }
      }
    }

    method Argument(a: Argument, depth: nat) returns (ok: bool)
      modifies this
      ensures ok <==> ArgumentFits(a, depth)
      ensures ok ==> Written() == old(Written()) + EncodeArgument(a)
      decreases a, 3
    {
      hide Join, EncodeScalar, EncodeNested, TextFits;
      if depth > MAX_DEPTH {
        return false;
      }
      Raw([ArgumentTag(a)]);
      if ArgumentTag(a) < 8 {
        ok := Scalar(a);
      } else {
        ok := Nested(a, depth + 1);
      }
    }

    method Scalar(a: Argument) returns (ok: bool)
      requires ArgumentTag(a) < 8
      modifies this
      ensures ok <==> ArgumentFits(a, 0)
      ensures ok ==> Written() == old(Written()) + EncodeScalar(a)
    {
      Limits();
      match a {
        case NodeRef(name) => ok := String(name);
        case Null => ok := true;
        case Ellipsis => ok := true;
        case Bool(flag) =>
          Raw([if flag then 1 else 0]);
          ok := true;
        case Int(number) =>
          ok := -I64_LIMIT <= number < I64_LIMIT;
          if ok {
            Raw(EncodeInt(number));
          }
        case Float(bits) =>
          ok := IsFinite(bits);
          if ok {
            Raw(Little(8, bits));
          }
        case Str(text) => ok := String(text);
        case Symbol(symbol) => ok := String(symbol);
      }
    }

    method Nested(a: Argument, depth: nat) returns (ok: bool)
      requires ArgumentTag(a) >= 8 && 0 < depth <= MAX_DEPTH + 1
      modifies this
      ensures ok <==> ArgumentFits(a, depth - 1)
      ensures ok ==> Written() == old(Written()) + EncodeNested(a)
      decreases a, 2
    {
      hide Join, EncodeArgument, EncodeArgumentList, EncodeFieldList, TextFits;
      match a {
        case List(items) => ok := Arguments(items, depth);
        case Tuple(items) => ok := Arguments(items, depth);
        case Mapping(fields) => ok := Fields(fields, depth);
        case Slice(start, stop, step) =>
          ok := Argument(start, depth);
          if ok {
            ok := Argument(stop, depth);
            if ok {
              ok := Argument(step, depth);
              assert old(Written()) + EncodeArgument(start) + EncodeArgument(stop) + EncodeArgument(step)
                  == old(Written()) + (EncodeArgument(start) + (EncodeArgument(stop) + EncodeArgument(step)));
            }
          }
      }
    }

    method Arguments(items: seq<Argument>, depth: nat) returns (ok: bool)
      modifies this
      ensures ok <==> |items| < U32_LIMIT && ArgumentsFit(items, depth)
      ensures ok ==> Written() == old(Written()) + EncodeArgumentList(items)
      decreases items, 1
    {
      Limits();
      hide Join, EncodeArgument, ArgumentFits, Little, Limit;
      ok := Unsigned(4, |items|);
      if !ok {
        return;
      }
      for i := 0 to |items|
        invariant ArgumentsFit(items, depth) <==> ArgumentsFit(items[i..], depth)
        invariant Written() + EncodeArguments(items[i..]) == old(Written()) + EncodeArgumentList(items)
      {
        assert items[i..][1..] == items[i + 1..];
        ghost var before := Written();
        ok := Argument(items[i], depth);
        if !ok {
          return;
        }
        assert before + (EncodeArgument(items[i]) + EncodeArguments(items[i + 1..]))
            == Written() + EncodeArguments(items[i + 1..]);
      }
    }

    method Fields(fields: seq<Field>, depth: nat) returns (ok: bool)
      modifies this
      ensures ok <==> |fields| < U32_LIMIT && FieldsFit(fields, depth)
      ensures ok ==> Written() == old(Written()) + EncodeFieldList(fields)
      decreases fields, 1
    {
      Limits();
      hide Join, EncodeArgument, ArgumentFits, EncodeText, TextFits, Little, Limit;
      ok := Unsigned(4, |fields|);
      if !ok {
        return;
      }
      for i := 0 to |fields|
        invariant FieldsFit(fields, depth) <==> FieldsFit(fields[i..], depth)
        invariant Written() + EncodeFields(fields[i..]) == old(Written()) + EncodeFieldList(fields)
      {
        assert fields[i..][1..] == fields[i + 1..];
        ghost var before := Written();
        ok := String(fields[i].name);
        if !ok {
          return;
        }
        ok := Argument(fields[i].value, depth);
        if !ok {
          return;
        }
        assert before + (EncodeText(fields[i].name)
                         + (EncodeArgument(fields[i].value) + EncodeFields(fields[i + 1..])))
            == Written() + EncodeFields(fields[i + 1..]);
      }
    }

    method Texts(texts: seq<Text>) returns (ok: bool)
      modifies this
      ensures ok <==> TextsFit(texts)
      ensures ok ==> Written() == old(Written()) + EncodeTexts(texts)
    {
      hide Join, EncodeText, TextFits;
      ok := true;
      for i := 0 to |texts|
        invariant ok && forall j :: 0 <= j < i ==> TextFits(texts[j])
        invariant Written() + EncodeTexts(texts[i..]) == old(Written()) + EncodeTexts(texts)
      {
        assert texts[i..][1..] == texts[i + 1..];
        ghost var before := Written();
        ok := String(texts[i]);
        if !ok {
          return;
        }
        assert before + (EncodeText(texts[i]) + EncodeTexts(texts[i + 1..]))
            == Written() + EncodeTexts(texts[i + 1..]);
      }
    }

    method TextList(texts: seq<Text>) returns (ok: bool)
      modifies this
      ensures ok <==> |texts| < U32_LIMIT && TextsFit(texts)
      ensures ok ==> Written() == old(Written()) + EncodeTextList(texts)
    {
      Limits();
      hide Join, EncodeTexts, TextFits;
      ok := Unsigned(4, |texts|);
      if ok {
        ok := Texts(texts);
      }
    }

    method Dimensions(dims: seq<int>) returns (ok: bool)
      modifies this
      ensures ok <==> DimensionsFit(dims)
      ensures ok ==> Written() == old(Written()) + EncodeDimensions(dims)
    {
      Limits();
      hide Join, Little, Limit;
      ok := true;
      for i := 0 to |dims|
        invariant ok && forall j :: 0 <= j < i ==> 0 <= dims[j] < U64_LIMIT
        invariant Written() + EncodeDimensions(dims[i..]) == old(Written()) + EncodeDimensions(dims)
      {
        assert dims[i..][1..] == dims[i + 1..];
        ghost var before := Written();
        ok := Unsigned(8, dims[i]);
        if !ok {
          return;
        }
        assert dims[i] % U64_LIMIT == dims[i];
        assert before + (EncodeInt(dims[i]) + EncodeDimensions(dims[i + 1..]))
            == Written() + EncodeDimensions(dims[i + 1..]);
      }
    }

    method Head(n: Node) returns (ok: bool)
      modifies this
      ensures ok <==> TextFits(n.name) && TextFits(n.op) && TextFits(n.target) && !n.dtype.dtype.Unsupported?
      ensures ok ==> Written() == old(Written()) + EncodeHead(n)
    {
      hide Join, EncodeText, TextFits, Little;
      ok := String(n.name);
      if !ok {
        return;
      }
      ok := String(n.op);
      if !ok {
        return;
      }
      ok := String(n.target);
      if !ok {
        return;
      }
      ok := !n.dtype.dtype.Unsupported?;
      if ok {
        Raw(Little(1, DtypeTag(n.dtype.dtype)));
      }
    }

    method BindingAndShape(n: Node) returns (ok: bool)
      modifies this
      ensures ok <==> (n.binding.TensorStore? ==> TextFits(n.binding.key))
                      && (n.shape.Some? ==> |n.shape.value| < U16_LIMIT && DimensionsFit(n.shape.value))
      ensures ok ==> Written() == old(Written()) + (EncodeBinding(n.binding) + EncodeShape(n.shape))
    {
      Limits();
      hide Join, EncodeText, TextFits, EncodeDimensions, Little, Limit;
      match n.binding {
        case Computed => Raw([0]);
        case Runtime => Raw([1]);
        case TensorStore(key) =>
          Raw([2]);
          ok := String(key);
          if !ok {
            return;
          }
      }
      match n.shape {
        case None =>
          Raw([0]);
          ok := true;
        case Some(dims) =>
          Raw([1]);
          ok := Unsigned(2, |dims|);
          if ok {
            ok := Dimensions(dims);
          }
      }
    }

    method Node(n: Node) returns (ok: bool)
      modifies this
      ensures ok <==> NodeFits(n)
      ensures ok ==> Written() == old(Written()) + EncodeNode(n)
    {
      hide Join, EncodeHead, EncodeBinding, EncodeShape, EncodeTextList, EncodeArgumentList, EncodeFieldList;
      hide TextFits, TextsFit, ArgumentsFit, FieldsFit, DimensionsFit;
      ghost var before := Written();
      ok := Head(n);
      if !ok {
        return;
      }
      ok := BindingAndShape(n);
      if !ok {
        return;
      }
      ok := TextList(n.inputs);
      if !ok {
        return;
      }
      ok := Arguments(n.args, 0);
      if !ok {
        return;
      }
      ok := Fields(n.kwargs, 0);
      if ok {
        NodeParts(before, EncodeHead(n), EncodeBinding(n.binding), EncodeShape(n.shape),
                  EncodeTextList(n.inputs), EncodeArgumentList(n.args), EncodeFieldList(n.kwargs));
      }
    }
  }

  lemma NodeParts(w: Bytes, h: Bytes, b: Bytes, s: Bytes, t: Bytes, a: Bytes, f: Bytes)
    ensures w + h + (b + s) + t + a + f == w + (h + (b + (s + (t + (a + f)))))
  {
  }

  method WriteNodes(writer: Writer, nodes: seq<Node>) returns (ok: bool)
    modifies writer
    ensures ok <==> forall i :: 0 <= i < |nodes| ==> NodeFits(nodes[i])
    ensures ok ==> writer.Written() == old(writer.Written()) + EncodeNodes(nodes)
  {
    hide Join, EncodeNode, NodeFits;
    ok := true;
    for i := 0 to |nodes|
      invariant ok && forall j :: 0 <= j < i ==> NodeFits(nodes[j])
      invariant writer.Written() + EncodeNodes(nodes[i..]) == old(writer.Written()) + EncodeNodes(nodes)
    {
      assert nodes[i..][1..] == nodes[i + 1..];
      ghost var before := writer.Written();
      ok := writer.Node(nodes[i]);
      if !ok {
        return;
      }
      assert before + (EncodeNode(nodes[i]) + EncodeNodes(nodes[i + 1..]))
          == writer.Written() + EncodeNodes(nodes[i + 1..]);
    }
  }

  /** `encode_manifest`: fails exactly on a manifest that does not fit the format. */
  method EncodeManifestBytes(m: Manifest) returns (r: Result<Bytes, Error>)
    ensures r == if ManifestFits(m) then Ok(EncodeManifest(m)) else Err(Unencodable)
  {
    if m.version != MANIFEST_VERSION || |m.nodes| >= U32_LIMIT || |m.outputs| >= U32_LIMIT {
      return Err(Unencodable);
    }
    hide EncodeNodes, EncodeTexts, NodeFits, TextsFit, EncodeHeader, Join;
    var writer := new Writer();
    writer.Raw(EncodeHeader(|m.nodes|, |m.outputs|));
    var ok := WriteNodes(writer, m.nodes);
    if !ok {
      return Err(Unencodable);
    }
    ok := writer.Texts(m.outputs);
    if !ok {
      return Err(Unencodable);
    }
    FileParts(EncodeHeader(|m.nodes|, |m.outputs|), EncodeNodes(m.nodes), EncodeTexts(m.outputs));
    r := Ok(Join(writer.parts));
  }

  lemma FileParts(h: Bytes, n: Bytes, o: Bytes)
    ensures [] + h + n + o == h + (n + o)
  {
  }

  // ---------------------------------------------------------------------------------------
  // Reading
  // ---------------------------------------------------------------------------------------

  /** A reader that returned `r` and stands before `rest` did what `p` describes. */
  ghost predicate Did<T>(p: Parsed<T>, r: Result<T, Error>, rest: Bytes) {
    match p
    case Ok((v, after)) => r == Ok(v) && rest == after
    case Err(e) => r == Err(e)
  }

  /** What is left to read, given what has been read. */
  ghost function After<T>(items: seq<T>, p: Parsed<seq<T>>): Parsed<seq<T>> {
    match p
    case Ok((tail, rest)) => Ok((items + tail, rest))
    case Err(e) => Err(e)
  }

  lemma AfterNothing<T>(p: Parsed<seq<T>>, items: seq<T>, rest: Bytes)
    ensures After([], p) == p
    ensures After(items, Ok(([], rest))) == Ok((items, rest))
  {
    if p.Ok? {
      assert [] + p.value.0 == p.value.0;
    }
    assert items + [] == items;
  }

  lemma AfterOneMore<T>(items: seq<T>, item: T, p: Parsed<seq<T>>)
    ensures After(items, After([item], p)) == After(items + [item], p)
  {
    if p.Ok? {
      assert items + ([item] + p.value.0) == (items + [item]) + p.value.0;
    }
  }

  class Reader {
    const data: Bytes
    var offset: nat
    /** How many argument objects have been started; the real reader keeps no such count. */
    ghost var built: nat

    constructor (data: Bytes)
      ensures this.data == data && offset == 0 && built == 0
    {
      this.data := data;
      offset, built := 0, 0;
    }

    ghost predicate Valid()
      reads this
    {
      offset <= |data|
    }

    ghost function Rest(): Bytes
      reads this
      requires Valid()
    {
      data[offset..]
    }

    /**
     The cursor never moves back or past the end, and no more argument objects were started than
     bytes consumed: true of every call below, also of one that raises.
     */
    twostate predicate Moved()
      reads this
    {
      old(offset) <= offset <= |data| && built - old(built) <= offset - old(offset)
    }

    method Raw(size: nat) returns (r: Result<Bytes, Error>)
      requires Valid()
      modifies this
      ensures Moved() && built == old(built)
      ensures Did(ReadRaw(old(Rest()), size), r, Rest())
    {
      var end := offset + size;
      if end > |data| {
        return Err(Truncated);
      }
      assert Rest()[..size] == data[offset..end] && Rest()[size..] == data[end..];
      r := Ok(data[offset..end]);
      offset := end;
    }

    method Unsigned(width: nat) returns (r: Result<nat, Error>)
      requires Valid()
      modifies this
      ensures Moved() && built == old(built)
      ensures Did(ReadLittle(old(Rest()), width), r, Rest())
      ensures r.Ok? ==> offset == old(offset) + width
    {
      var raw :- Raw(width);
      r := Ok(FromLittle(raw));
    }

    method String() returns (r: Result<Text, Error>)
      requires Valid()
      modifies this
      ensures Moved() && built == old(built)
      ensures Did(ReadText(old(Rest())), r, Rest())
    {
      hide Decode;
      var size :- Unsigned(4);
      var raw :- Raw(size);
      match Decode(raw) {
        case Some(s) => r := Ok(s);
        case None => r := Err(InvalidUtf8);
      }
    }

    method Texts(count: nat) returns (r: Result<seq<Text>, Error>)
      requires Valid()
      modifies this
      ensures Moved() && built == old(built)
      ensures Did(ReadTexts(old(Rest()), count), r, Rest())
    {
      hide ReadText;
      var items := [];
      AfterNothing(ReadTexts(Rest(), count), items, []);
      for i := 0 to count
        invariant Moved() && built == old(built)
        invariant ReadTexts(old(Rest()), count) == After(items, ReadTexts(Rest(), count - i))
      {
        var s :- String();
        AfterOneMore(items, s, ReadTexts(Rest(), count - i - 1));
        items := items + [s];
      }
      AfterNothing(ReadTexts(Rest(), 0), items, Rest());
      r := Ok(items);
    }

    method Argument(depth: nat) returns (r: Result<Argument, Error>)
      requires Valid()
      modifies this
      ensures Moved()
      ensures Did(ReadArgument(old(Rest()), depth), r, Rest())
      decreases MAX_DEPTH + 1 - depth, 0, 0
    {
      hide ReadScalar, ReadNested;
      if depth > MAX_DEPTH {
        return Err(TooDeep);
      }
      var tag :- Unsigned(1);
      built := built + 1;
      if tag < 8 {
        r := Scalar(tag);
      } else if tag < 12 {
        r := Nested(tag, depth + 1);
      } else {
        r := Err(UnknownArgumentTag);
      }
    }

    method Scalar(tag: nat) returns (r: Result<Argument, Error>)
      requires Valid() && tag < 8
      modifies this
      ensures Moved() && built == old(built)
      ensures Did(ReadScalar(tag, old(Rest())), r, Rest())
    {
      hide ReadText;
      if tag == 0 {
        var s :- String();
        r := Ok(NodeRef(s));
      } else if tag == 1 {
        r := Ok(Null);
      } else if tag == 2 {
        r := Ok(Ellipsis);
      } else if tag == 3 {
        var v :- Unsigned(1);
        r := if v == 0 || v == 1 then Ok(Bool(v == 1)) else Err(InvalidBool);
      } else if tag == 4 {
        var raw :- Raw(8);
        LittleBound(raw);
        r := Ok(Int(ToSigned(FromLittle(raw))));
      } else if tag == 5 {
        var raw :- Raw(8);
        LittleBound(raw);
        r := if IsFinite(FromLittle(raw)) then Ok(Float(FromLittle(raw))) else Err(NonFinite);
      } else if tag == 6 {
        var s :- String();
        r := Ok(Str(s));
      } else {
        var s :- String();
        r := Ok(Symbol(s));
      }
    }

    method Nested(tag: nat, depth: nat) returns (r: Result<Argument, Error>)
      requires Valid() && 8 <= tag < 12 && depth <= MAX_DEPTH + 1
      modifies this
      ensures Moved()
      ensures Did(ReadNested(tag, old(Rest()), depth), r, Rest())
      decreases MAX_DEPTH + 1 - depth, 3, 0
    {
      hide ReadArgument, ReadArgumentList, ReadFieldList;
      if tag == 8 {
        var items :- ArgumentList(depth);
        r := Ok(List(items));
      } else if tag == 9 {
        var items :- ArgumentList(depth);
        r := Ok(Tuple(items));
      } else if tag == 10 {
        var fields :- FieldList(depth);
        r := Ok(Mapping(fields));
      } else {
        var start :- Argument(depth);
        var stop :- Argument(depth);
        var step :- Argument(depth);
        r := Ok(Slice(start, stop, step));
      }
    }

    method ArgumentList(depth: nat) returns (r: Result<seq<Argument>, Error>)
      requires Valid() && depth <= MAX_DEPTH + 1
      modifies this
      ensures Moved()
      ensures Did(ReadArgumentList(old(Rest()), depth), r, Rest())
      decreases MAX_DEPTH + 1 - depth, 2, 0
    {
      hide ReadArgument;
      var count :- Unsigned(4);
      ghost var start := Rest();
      var items := [];
      AfterNothing(ReadArguments(Rest(), count, depth), items, []);
      for i := 0 to count
        invariant Moved()
        invariant ReadArguments(start, count, depth) == After(items, ReadArguments(Rest(), count - i, depth))
      {
        var a :- Argument(depth);
        AfterOneMore(items, a, ReadArguments(Rest(), count - i - 1, depth));
        items := items + [a];
      }
      AfterNothing(ReadArguments(Rest(), 0, depth), items, Rest());
      r := Ok(items);
    }

    method FieldList(depth: nat) returns (r: Result<seq<Field>, Error>)
      requires Valid() && depth <= MAX_DEPTH + 1
      modifies this
      ensures Moved()
      ensures Did(ReadFieldList(old(Rest()), depth), r, Rest())
      decreases MAX_DEPTH + 1 - depth, 2, 0
    {
      hide ReadArgument, ReadText;
      var count :- Unsigned(4);
      ghost var start := Rest();
      var fields := [];
      AfterNothing(ReadFields(Rest(), count, depth), fields, []);
      for i := 0 to count
        invariant Moved()
        invariant ReadFields(start, count, depth) == After(fields, ReadFields(Rest(), count - i, depth))
      {
        var name :- String();
        var value :- Argument(depth);
        AfterOneMore(fields, Field(name, value), ReadFields(Rest(), count - i - 1, depth));
        fields := fields + [Field(name, value)];
      }
      AfterNothing(ReadFields(Rest(), 0, depth), fields, Rest());
      r := Ok(fields);
    }

    method TextList() returns (r: Result<seq<Text>, Error>)
      requires Valid()
      modifies this
      ensures Moved()
      ensures Did(ReadTextList(old(Rest())), r, Rest())
    {
      hide ReadTexts;
      var count :- Unsigned(4);
      r := Texts(count);
    }

    method Binding() returns (r: Result<Binding, Error>)
      requires Valid()
      modifies this
      ensures Moved()
      ensures Did(ReadBinding(old(Rest())), r, Rest())
    {
      hide ReadText;
      var tag :- Unsigned(1);
      if tag == 0 {
        r := Ok(Computed);
      } else if tag == 1 {
        r := Ok(Runtime);
      } else if tag == 2 {
        var key :- String();
        r := Ok(TensorStore(key));
      } else {
        r := Err(UnknownBindingTag);
      }
    }

    method Shape() returns (r: Result<Option<seq<int>>, Error>)
      requires Valid()
      modifies this
      ensures Moved()
      ensures Did(ReadShape(old(Rest())), r, Rest())
    {
      hide ReadLittle;
      var tag :- Unsigned(1);
      if tag == 0 {
        r := Ok(None);
      } else if tag == 1 {
        var rank :- Unsigned(2);
        ghost var start := Rest();
        var dims: seq<int> := [];
        AfterNothing(ReadDimensions(Rest(), rank), dims, []);
        for i := 0 to rank
          invariant Moved()
          invariant ReadDimensions(start, rank) == After(dims, ReadDimensions(Rest(), rank - i))
        {
          var d :- Unsigned(8);
          AfterOneMore(dims, d, ReadDimensions(Rest(), rank - i - 1));
          dims := dims + [d];
        }
        AfterNothing(ReadDimensions(Rest(), 0), dims, Rest());
        r := Ok(Some(dims));
      } else {
        r := Err(UnknownShapeTag);
      }
    }

    method Node() returns (r: Result<Node, Error>)
      requires Valid()
      modifies this
      ensures Moved()
      ensures Did(ReadNode(old(Rest())), r, Rest())
    {
      hide ReadText, ReadLittle, ReadBinding, ReadShape, ReadTextList, ReadArgumentList, ReadFieldList;
      var name :- String();
      var op :- String();
      var target :- String();
      var tag :- Unsigned(1);
      if tag >= DTYPE_COUNT {
        return Err(UnknownDtypeTag);
      }
      var binding :- Binding();
      var shape :- Shape();
      var inputs :- TextList();
      var args :- ArgumentList(0);
      var kwargs :- FieldList(0);
      r := Ok(FxGraph.Node(name, op, target, inputs, shape, DtypeName(false, DtypeOfTag(tag)), binding, args, kwargs));
    }

    method Nodes(count: nat) returns (r: Result<seq<Node>, Error>)
      requires Valid()
      modifies this
      ensures Moved()
      ensures Did(ReadNodes(old(Rest()), count), r, Rest())
    {
      hide ReadNode;
      var nodes := [];
      AfterNothing(ReadNodes(Rest(), count), nodes, []);
      for i := 0 to count
        invariant Moved()
        invariant ReadNodes(old(Rest()), count) == After(nodes, ReadNodes(Rest(), count - i))
      {
        var n :- Node();
        AfterOneMore(nodes, n, ReadNodes(Rest(), count - i - 1));
        nodes := nodes + [n];
      }
      AfterNothing(ReadNodes(Rest(), 0), nodes, Rest());
      r := Ok(nodes);
    }
  }

  /** `decode_manifest`, with the number of argument objects it started on the way. */
  method DecodeManifestBytes(data: Bytes) returns (r: Result<Manifest, Error>, ghost built: nat)
    ensures r == DecodeManifest(data)
    ensures built <= |data|
  {
    hide ReadNodes, ReadTexts, CheckHeader;
    var reader := new Reader(data);
    built := 0;
    var raw := reader.Raw(20);
    if raw.Err? {
      return Err(raw.error), built;
    }
    var counts := CheckHeader(raw.value);
    if counts.Err? {
      return Err(counts.error), built;
    }
    var nodes := reader.Nodes(counts.value.0);
    built := reader.built;
    if nodes.Err? {
      return Err(nodes.error), built;
    }
    var outputs := reader.Texts(counts.value.1);
    if outputs.Err? {
      return Err(outputs.error), built;
    }
    if reader.offset != |data| {
      return Err(TrailingBytes), built;
    }
    r := Ok(Manifest(MANIFEST_VERSION, nodes.value, outputs.value));
  }
}
