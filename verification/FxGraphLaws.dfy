/**
 The laws of the graph transport.

 Every reader is characterised by one lemma, on every input that agrees with the encoding of a
 fitting value as far as both go: the reader returns that value and stops at its last byte, or
 reports truncation if the input ends first. A second lemma per reader runs the other way: what
 it consumed is the encoding of what it returned, and that value fits.
 */
module FxGraphLaws {
  import opened Bytes
  import opened Results
  import opened Utf8
  import opened FxGraph

  /** One of the two is a prefix of the other. */
  ghost predicate Agree(e: Bytes, b: Bytes) {
    e <= b || b <= e
  }

  ghost function Cut<T>(e: Bytes, v: T, b: Bytes): Parsed<T> {
    if e <= b then Ok((v, b[|e|..])) else Err(Truncated)
  }

  lemma Split(e: Bytes, f: Bytes, b: Bytes)
    requires Agree(e + f, b)
    ensures Agree(e, b)
    ensures e <= b ==> Agree(f, b[|e|..]) && (e + f <= b <==> f <= b[|e|..])
    ensures e + f <= b ==> e <= b && b[|e + f|..] == b[|e|..][|f|..]
  {
    assert (e + f)[..|e|] == e && (e + f)[|e|..] == f;
    if e + f <= b {
      assert b[..|e + f|] == e + f;
      assert b == e + f + b[|e + f|..];
      assert b[|e|..] == f + b[|e + f|..];
    } else if e <= b {
      assert b == (e + f)[..|b|];
      assert b[|e|..] == f[..|b| - |e|];
    } else {
      assert b == (e + f)[..|b|];
      if |e| <= |b| {
        assert false;
      }
      assert b == e[..|b|];
    }
  }

  // ---------------------------------------------------------------------------------------
  // Reading back what was written, from any input that agrees with it
  // ---------------------------------------------------------------------------------------

  lemma RawCut(e: Bytes, b: Bytes)
    requires Agree(e, b)
    ensures ReadRaw(b, |e|) == Cut(e, e, b)
  {
    if b <= e && |e| <= |b| {
      assert b == e;
    }
    if e <= b {
      assert b[..|e|] == e;
    }
  }

  lemma LittleCut(width: nat, value: nat, b: Bytes)
    requires value < Limit(width) && Agree(Little(width, value), b)
    ensures ReadLittle(b, width) == Cut(Little(width, value), value, b)
  {
    RawCut(Little(width, value), b);
    FromLittleOfLittle(width, value);
  }

  lemma TextCut(s: Text, b: Bytes)
    requires TextFits(s) && Agree(EncodeText(s), b)
    ensures ReadText(b) == Cut(EncodeText(s), s, b)
  {
    var size := Little(4, |Encode(s)|);
    Limits();
    Split(size, Encode(s), b);
    LittleCut(4, |Encode(s)|, b);
    if size <= b {
      RawCut(Encode(s), b[4..]);
      DecodeEncode(s);
    }
  }

  lemma {:induction false} TextsCut(texts: seq<Text>, b: Bytes)
    requires TextsFit(texts) && Agree(EncodeTexts(texts), b)
    ensures ReadTexts(b, |texts|) == Cut(EncodeTexts(texts), texts, b)
  {
    hide EncodeText, ReadText, TextFits;
    if texts == [] {
    } else {
      var e := EncodeText(texts[0]);
      Split(e, EncodeTexts(texts[1..]), b);
      TextCut(texts[0], b);
      if e <= b {
        TextsCut(texts[1..], b[|e|..]);
        assert [texts[0]] + texts[1..] == texts;
      }
    }
  }

  lemma IntCut(i: int, b: Bytes)
    requires -I64_LIMIT <= i < I64_LIMIT && Agree(EncodeInt(i), b)
    ensures ReadRaw(b, 8) == Cut(EncodeInt(i), EncodeInt(i), b)
    ensures FromLittle(EncodeInt(i)) < U64_LIMIT && ToSigned(FromLittle(EncodeInt(i))) == i
  {
    Limits();
    RawCut(EncodeInt(i), b);
    FromLittleOfLittle(8, i % U64_LIMIT);
  }

  /** The tag byte of an argument and the payload behind it. */
  lemma TagCut(tag: Byte, payload: Bytes, b: Bytes)
    requires Agree([tag] + payload, b)
    ensures b == [] ==> ReadLittle(b, 1) == Err(Truncated)
    ensures b != [] ==> ReadLittle(b, 1) == Ok((tag, b[1..])) && Agree(payload, b[1..])
    ensures b != [] ==> ([tag] + payload <= b <==> payload <= b[1..])
    ensures b != [] && payload <= b[1..] ==> b[|[tag] + payload|..] == b[1..][|payload|..]
  {
    Split([tag], payload, b);
    if b != [] {
      assert b[..1] == [tag];
      assert FromLittle([tag]) == tag + 256 * FromLittle([]);
    }
  }

  lemma ScalarCut(a: Argument, depth: nat, b: Bytes)
    requires ArgumentTag(a) < 8 && ArgumentFits(a, depth) && Agree(EncodeScalar(a), b)
    ensures ReadScalar(ArgumentTag(a), b) == Cut(EncodeScalar(a), a, b)
  {
    match a {
      case NodeRef(s) => TextCut(s, b);
      case Null =>
      case Ellipsis =>
      case Bool(flag) =>
        assert EncodeScalar(a) == [if flag then 1 else 0] + [];
        TagCut(if flag then 1 else 0, [], b);
      case Int(i) => IntCut(i, b);
      case Float(bits) =>
        Limits();
        RawCut(Little(8, bits), b);
        FromLittleOfLittle(8, bits);
      case Str(s) => TextCut(s, b);
      case Symbol(s) => TextCut(s, b);
    }
  }

  lemma {:induction false} ArgumentCut(a: Argument, depth: nat, b: Bytes)
    requires ArgumentFits(a, depth) && Agree(EncodeArgument(a), b)
    ensures ReadArgument(b, depth) == Cut(EncodeArgument(a), a, b)
    decreases a, 3
  {
    var payload := EncodeArgument(a)[1..];
    TagCut(ArgumentTag(a), payload, b);
    if b != [] {
      if ArgumentTag(a) < 8 {
        assert payload == EncodeScalar(a);
        ScalarCut(a, depth, b[1..]);
      } else {
        assert payload == EncodeNested(a);
        NestedCut(a, depth + 1, b[1..]);
      }
    }
  }

  lemma {:induction false} NestedCut(a: Argument, depth: nat, b: Bytes)
    requires ArgumentTag(a) >= 8 && depth > 0 && ArgumentFits(a, depth - 1) && Agree(EncodeNested(a), b)
    ensures ReadNested(ArgumentTag(a), b, depth) == Cut(EncodeNested(a), a, b)
    decreases a, 2
  {
    match a {
      case List(items) => ArgumentListCut(items, depth, b);
      case Tuple(items) => ArgumentListCut(items, depth, b);
      case Mapping(fields) => FieldListCut(fields, depth, b);
      case Slice(_, _, _) => SliceCut(a, depth, b);
    }
  }

  lemma {:induction false} SliceCut(a: Argument, depth: nat, b: Bytes)
    requires a.Slice? && depth <= MAX_DEPTH + 1
    requires ArgumentFits(a.start, depth) && ArgumentFits(a.stop, depth) && ArgumentFits(a.step, depth)
    requires Agree(EncodeArgument(a.start) + (EncodeArgument(a.stop) + EncodeArgument(a.step)), b)
    ensures ReadSlice(b, depth)
            == Cut(EncodeArgument(a.start) + (EncodeArgument(a.stop) + EncodeArgument(a.step)), a, b)
    decreases a, 0
  {
    hide EncodeArgument, ReadArgument, ArgumentFits;
    var e, f, g := EncodeArgument(a.start), EncodeArgument(a.stop), EncodeArgument(a.step);
    Split(e, f + g, b);
    ArgumentCut(a.start, depth, b);
    if e <= b {
      var c := b[|e|..];
      Split(f, g, c);
      ArgumentCut(a.stop, depth, c);
      if f <= c {
        ArgumentCut(a.step, depth, c[|f|..]);
      }
    }
  }

  lemma {:induction false} ArgumentListCut(items: seq<Argument>, depth: nat, b: Bytes)
    requires depth <= MAX_DEPTH + 1 && |items| < U32_LIMIT && ArgumentsFit(items, depth)
    requires Agree(EncodeArgumentList(items), b)
    ensures ReadArgumentList(b, depth) == Cut(EncodeArgumentList(items), items, b)
    decreases items, 2
  {
    Limits();
    Split(Little(4, |items|), EncodeArguments(items), b);
    LittleCut(4, |items|, b);
    if Little(4, |items|) <= b {
      ArgumentsCut(items, depth, b[4..]);
    }
  }

  lemma {:induction false} ArgumentsCut(items: seq<Argument>, depth: nat, b: Bytes)
    requires depth <= MAX_DEPTH + 1
    requires ArgumentsFit(items, depth) && Agree(EncodeArguments(items), b)
    ensures ReadArguments(b, |items|, depth) == Cut(EncodeArguments(items), items, b)
    decreases items, 0
  {
    hide EncodeArgument, ReadArgument, ArgumentFits;
    if items == [] {
    } else {
      var e := EncodeArgument(items[0]);
      Split(e, EncodeArguments(items[1..]), b);
      ArgumentCut(items[0], depth, b);
      if e <= b {
        ArgumentsCut(items[1..], depth, b[|e|..]);
        assert [items[0]] + items[1..] == items;
      }
    }
  }

  lemma {:induction false} FieldListCut(fields: seq<Field>, depth: nat, b: Bytes)
    requires depth <= MAX_DEPTH + 1 && |fields| < U32_LIMIT && FieldsFit(fields, depth)
    requires Agree(EncodeFieldList(fields), b)
    ensures ReadFieldList(b, depth) == Cut(EncodeFieldList(fields), fields, b)
    decreases fields, 2
  {
    Limits();
    Split(Little(4, |fields|), EncodeFields(fields), b);
    LittleCut(4, |fields|, b);
    if Little(4, |fields|) <= b {
      FieldsCut(fields, depth, b[4..]);
    }
  }

  lemma {:induction false} FieldsCut(fields: seq<Field>, depth: nat, b: Bytes)
    requires depth <= MAX_DEPTH + 1
    requires FieldsFit(fields, depth) && Agree(EncodeFields(fields), b)
    ensures ReadFields(b, |fields|, depth) == Cut(EncodeFields(fields), fields, b)
    decreases fields, 0
  {
    hide EncodeArgument, ReadArgument, ArgumentFits, EncodeText, ReadText, TextFits;
    if fields == [] {
    } else {
      var n, v := EncodeText(fields[0].name), EncodeArgument(fields[0].value);
      Split(n, v + EncodeFields(fields[1..]), b);
      TextCut(fields[0].name, b);
      if n <= b {
        var c := b[|n|..];
        Split(v, EncodeFields(fields[1..]), c);
        ArgumentCut(fields[0].value, depth, c);
        if v <= c {
          FieldsCut(fields[1..], depth, c[|v|..]);
          assert [fields[0]] + fields[1..] == fields;
        }
      }
    }
  }

  lemma TextListCut(texts: seq<Text>, b: Bytes)
    requires |texts| < U32_LIMIT && TextsFit(texts) && Agree(EncodeTextList(texts), b)
    ensures ReadTextList(b) == Cut(EncodeTextList(texts), texts, b)
  {
    Limits();
    Split(Little(4, |texts|), EncodeTexts(texts), b);
    LittleCut(4, |texts|, b);
    if Little(4, |texts|) <= b {
      TextsCut(texts, b[4..]);
    }
  }

  lemma BindingCut(binding: Binding, b: Bytes)
    requires binding.TensorStore? ==> TextFits(binding.key)
    requires Agree(EncodeBinding(binding), b)
    ensures ReadBinding(b) == Cut(EncodeBinding(binding), binding, b)
  {
    var e := EncodeBinding(binding);
    assert e == [e[0]] + e[1..];
    TagCut(e[0], e[1..], b);
    if b != [] && binding.TensorStore? {
      TextCut(binding.key, b[1..]);
    }
  }

  lemma DimensionCut(d: int, b: Bytes)
    requires 0 <= d < U64_LIMIT && Agree(EncodeInt(d), b)
    ensures ReadLittle(b, 8) == Cut(EncodeInt(d), d, b)
  {
    Limits();
    assert d % U64_LIMIT == d;
    LittleCut(8, d, b);
  }

  lemma {:induction false} DimensionsCut(dims: seq<int>, b: Bytes)
    requires DimensionsFit(dims) && Agree(EncodeDimensions(dims), b)
    ensures ReadDimensions(b, |dims|) == Cut(EncodeDimensions(dims), dims, b)
  {
    hide EncodeInt, ReadLittle;
    if dims == [] {
    } else {
      var e := EncodeInt(dims[0]);
      Split(e, EncodeDimensions(dims[1..]), b);
      DimensionCut(dims[0], b);
      if e <= b {
        DimensionsCut(dims[1..], b[|e|..]);
        assert [dims[0]] + dims[1..] == dims;
      }
    }
  }

  lemma ShapeCut(shape: Option<seq<int>>, b: Bytes)
    requires shape.Some? ==> |shape.value| < U16_LIMIT && DimensionsFit(shape.value)
    requires Agree(EncodeShape(shape), b)
    ensures ReadShape(b) == Cut(EncodeShape(shape), shape, b)
  {
    var e := EncodeShape(shape);
    assert e == [e[0]] + e[1..];
    TagCut(e[0], e[1..], b);
    if b != [] && shape.Some? {
      Limits();
      var rank := Little(2, |shape.value|);
      Split(rank, EncodeDimensions(shape.value), b[1..]);
      LittleCut(2, |shape.value|, b[1..]);
      if rank <= b[1..] {
        DimensionsCut(shape.value, b[1..][2..]);
      }
    }
  }

  /** A node as it comes back: its dtype has lost the torch prefix it may have been given with. */
  function Canonical(n: Node): Node {
    n.(dtype := DtypeName(false, n.dtype.dtype))
  }

  function HeadOf(n: Node): Head {
    Head(n.name, n.op, n.target, DtypeName(false, n.dtype.dtype))
  }

  lemma HeadCut(n: Node, b: Bytes)
    requires NodeFits(n) && Agree(EncodeHead(n), b)
    ensures ReadHead(b) == Cut(EncodeHead(n), HeadOf(n), b)
  {
    Limits();
    hide EncodeText, ReadText, TextFits, Little, ReadLittle;
    var e, f, g, h := EncodeText(n.name), EncodeText(n.op), EncodeText(n.target), Little(1, DtypeTag(n.dtype.dtype));
    Split(e, f + (g + h), b);
    TextCut(n.name, b);
    if e <= b {
      var c := b[|e|..];
      Split(f, g + h, c);
      TextCut(n.op, c);
      if f <= c {
        var d := c[|f|..];
        Split(g, h, d);
        TextCut(n.target, d);
        if g <= d {
          LittleCut(1, DtypeTag(n.dtype.dtype), d[|g|..]);
        }
      }
    }
  }

  lemma BodyCut(n: Node, b: Bytes)
    requires NodeFits(n) && Agree(EncodeBody(n), b)
    ensures ReadBody(b, HeadOf(n)) == Cut(EncodeBody(n), Canonical(n), b)
  {
    hide EncodeBinding, EncodeShape, EncodeTextList, EncodeArgumentList, EncodeFieldList;
    hide ReadBinding, ReadShape, ReadTextList, ReadArgumentList, ReadFieldList;
    hide TextFits, TextsFit, ArgumentsFit, FieldsFit, DimensionsFit;
    var e, f, g, h := EncodeBinding(n.binding), EncodeShape(n.shape), EncodeTextList(n.inputs), EncodeArgumentList(n.args);
    var i := EncodeFieldList(n.kwargs);
    Split(e, f + (g + (h + i)), b);
    BindingCut(n.binding, b);
    if e <= b {
      var c := b[|e|..];
      Split(f, g + (h + i), c);
      ShapeCut(n.shape, c);
      if f <= c {
        var d := c[|f|..];
        Split(g, h + i, d);
        TextListCut(n.inputs, d);
        if g <= d {
          var k := d[|g|..];
          Split(h, i, k);
          ArgumentListCut(n.args, 0, k);
          if h <= k {
            FieldListCut(n.kwargs, 0, k[|h|..]);
          }
        }
      }
    }
  }

  lemma NodeCut(n: Node, b: Bytes)
    requires NodeFits(n) && Agree(EncodeNode(n), b)
    ensures ReadNode(b) == Cut(EncodeNode(n), Canonical(n), b)
  {
    Split(EncodeHead(n), EncodeBody(n), b);
    HeadCut(n, b);
    if EncodeHead(n) <= b {
      BodyCut(n, b[|EncodeHead(n)|..]);
    }
  }

  function CanonicalNodes(nodes: seq<Node>): (r: seq<Node>)
    ensures |r| == |nodes| && forall i :: 0 <= i < |nodes| ==> r[i] == Canonical(nodes[i])
  {
    seq(|nodes|, i requires 0 <= i < |nodes| => Canonical(nodes[i]))
  }

  lemma {:induction false} NodesCut(nodes: seq<Node>, b: Bytes)
    requires forall i :: 0 <= i < |nodes| ==> NodeFits(nodes[i])
    requires Agree(EncodeNodes(nodes), b)
    ensures ReadNodes(b, |nodes|) == Cut(EncodeNodes(nodes), CanonicalNodes(nodes), b)
  {
    hide ReadNode, EncodeNode, NodeFits;
    if nodes == [] {
    } else {
      var e := EncodeNode(nodes[0]);
      Split(e, EncodeNodes(nodes[1..]), b);
      NodeCut(nodes[0], b);
      hide Agree;
      if e <= b {
        NodesCut(nodes[1..], b[|e|..]);
        assert [Canonical(nodes[0])] + CanonicalNodes(nodes[1..]) == CanonicalNodes(nodes);
      }
    }
  }

  // ---------------------------------------------------------------------------------------
  // What was consumed is the encoding of what was returned
  // ---------------------------------------------------------------------------------------

  lemma Glue(e: Bytes, f: Bytes, rest: Bytes)
    ensures e + (f + rest) == (e + f) + rest
  {
  }

  lemma LittleBack(b: Bytes, width: nat)
    requires ReadLittle(b, width).Ok?
    ensures var (v, rest) := ReadLittle(b, width).value;
            v < Limit(width) && b == Little(width, v) + rest
  {
    LittleOfFromLittle(b[..width]);
  }

  lemma TextBack(b: Bytes)
    requires ReadText(b).Ok?
    ensures var (s, rest) := ReadText(b).value; TextFits(s) && b == EncodeText(s) + rest
  {
    Limits();
    LittleBack(b, 4);
    var (size, c) := ReadLittle(b, 4).value;
    EncodeDecode(c[..size]);
    assert c == c[..size] + c[size..];
    Glue(Little(4, size), c[..size], c[size..]);
  }

  lemma {:induction false} TextsBack(b: Bytes, count: nat)
    requires ReadTexts(b, count).Ok?
    ensures var (texts, rest) := ReadTexts(b, count).value;
            |texts| == count && TextsFit(texts) && b == EncodeTexts(texts) + rest
    decreases count
  {
    if count != 0 {
      TextBack(b);
      var (s, c) := ReadText(b).value;
      TextsBack(c, count - 1);
      var (tail, rest) := ReadTexts(c, count - 1).value;
      assert ([s] + tail)[1..] == tail;
      Glue(EncodeText(s), EncodeTexts(tail), rest);
    }
  }

  lemma TextListBack(b: Bytes)
    requires ReadTextList(b).Ok?
    ensures var (texts, rest) := ReadTextList(b).value;
            |texts| < U32_LIMIT && TextsFit(texts) && b == EncodeTextList(texts) + rest
  {
    Limits();
    LittleBack(b, 4);
    var (count, c) := ReadLittle(b, 4).value;
    TextsBack(c, count);
    var (texts, rest) := ReadTexts(c, count).value;
    Glue(Little(4, count), EncodeTexts(texts), rest);
  }

  lemma IntBack(u: nat)
    requires u < U64_LIMIT
    ensures -I64_LIMIT <= ToSigned(u) < I64_LIMIT && ToSigned(u) % U64_LIMIT == u
  {
  }

  lemma ScalarBack(tag: nat, b: Bytes, depth: nat)
    requires depth <= MAX_DEPTH && tag < 8 && ReadScalar(tag, b).Ok?
    ensures var (a, rest) := ReadScalar(tag, b).value;
            ArgumentTag(a) == tag && ArgumentFits(a, depth) && b == EncodeScalar(a) + rest
  {
    if tag == 0 || tag == 6 || tag == 7 {
      TextBack(b);
    } else if tag == 3 {
      LittleBack(b, 1);
      assert b == [b[0]] + b[1..];
    } else if tag == 4 || tag == 5 {
      LittleBack(b, 8);
      LittleBound(b[..8]);
      IntBack(FromLittle(b[..8]));
    }
  }

  lemma TagBack(b: Bytes)
    requires ReadLittle(b, 1).Ok?
    ensures var (tag, rest) := ReadLittle(b, 1).value; tag < 256 && b == [tag] + rest
  {
    LittleBack(b, 1);
    Limits();
  }

  lemma {:induction false} ArgumentBack(b: Bytes, depth: nat)
    requires ReadArgument(b, depth).Ok?
    ensures var (a, rest) := ReadArgument(b, depth).value;
            ArgumentFits(a, depth) && b == EncodeArgument(a) + rest
    decreases MAX_DEPTH + 1 - depth, 0, 0
  {
    hide ReadLittle, ReadScalar, EncodeScalar, ReadNested, EncodeNested;
    TagBack(b);
    var (tag, c) := ReadLittle(b, 1).value;
    var (a, rest) := ReadArgument(b, depth).value;
    if tag < 8 {
      ScalarBack(tag, c, depth);
      Glue([tag], EncodeScalar(a), rest);
    } else {
      NestedBack(tag, c, depth + 1);
      Glue([tag], EncodeNested(a), rest);
    }
  }

  lemma {:induction false} NestedBack(tag: nat, b: Bytes, depth: nat)
    requires 8 <= tag < 12 && 0 < depth <= MAX_DEPTH + 1 && ReadNested(tag, b, depth).Ok?
    ensures var (a, rest) := ReadNested(tag, b, depth).value;
            ArgumentTag(a) == tag && ArgumentFits(a, depth - 1) && b == EncodeNested(a) + rest
    decreases MAX_DEPTH + 1 - depth, 3, 0
  {
    if tag == 8 || tag == 9 {
      ArgumentListBack(b, depth);
    } else if tag == 10 {
      FieldListBack(b, depth);
    } else {
      SliceBack(b, depth);
    }
  }

  lemma {:induction false} SliceBack(b: Bytes, depth: nat)
    requires depth <= MAX_DEPTH + 1 && ReadSlice(b, depth).Ok?
    ensures var (a, rest) := ReadSlice(b, depth).value;
            && a.Slice?
            && ArgumentFits(a.start, depth) && ArgumentFits(a.stop, depth) && ArgumentFits(a.step, depth)
            && b == EncodeArgument(a.start) + (EncodeArgument(a.stop) + EncodeArgument(a.step)) + rest
    decreases MAX_DEPTH + 1 - depth, 2, 0
  {
    ArgumentBack(b, depth);
    var (start, c) := ReadArgument(b, depth).value;
    ArgumentBack(c, depth);
    var (stop, d) := ReadArgument(c, depth).value;
    ArgumentBack(d, depth);
    var (step, rest) := ReadArgument(d, depth).value;
    Glue(EncodeArgument(stop), EncodeArgument(step), rest);
    Glue(EncodeArgument(start), EncodeArgument(stop) + EncodeArgument(step), rest);
  }

  lemma {:induction false} ArgumentListBack(b: Bytes, depth: nat)
    requires depth <= MAX_DEPTH + 1 && ReadArgumentList(b, depth).Ok?
    ensures var (items, rest) := ReadArgumentList(b, depth).value;
            |items| < U32_LIMIT && ArgumentsFit(items, depth) && b == EncodeArgumentList(items) + rest
    decreases MAX_DEPTH + 1 - depth, 2, 0
  {
    Limits();
    LittleBack(b, 4);
    var (count, c) := ReadLittle(b, 4).value;
    ArgumentsBack(c, count, depth);
    var (items, rest) := ReadArguments(c, count, depth).value;
    Glue(Little(4, count), EncodeArguments(items), rest);
  }

  lemma {:induction false} ArgumentsBack(b: Bytes, count: nat, depth: nat)
    requires depth <= MAX_DEPTH + 1 && ReadArguments(b, count, depth).Ok?
    ensures var (items, rest) := ReadArguments(b, count, depth).value;
            |items| == count && ArgumentsFit(items, depth) && b == EncodeArguments(items) + rest
    decreases MAX_DEPTH + 1 - depth, 1, count
  {
    hide EncodeArgument, ReadArgument, ArgumentFits;
    if count != 0 {
      ArgumentBack(b, depth);
      var (a, c) := ReadArgument(b, depth).value;
      ArgumentsBack(c, count - 1, depth);
      var (tail, rest) := ReadArguments(c, count - 1, depth).value;
      assert ([a] + tail)[1..] == tail;
      Glue(EncodeArgument(a), EncodeArguments(tail), rest);
    }
  }

  lemma {:induction false} FieldListBack(b: Bytes, depth: nat)
    requires depth <= MAX_DEPTH + 1 && ReadFieldList(b, depth).Ok?
    ensures var (fields, rest) := ReadFieldList(b, depth).value;
            |fields| < U32_LIMIT && FieldsFit(fields, depth) && b == EncodeFieldList(fields) + rest
    decreases MAX_DEPTH + 1 - depth, 2, 0
  {
    Limits();
    LittleBack(b, 4);
    var (count, c) := ReadLittle(b, 4).value;
    FieldsBack(c, count, depth);
    var (fields, rest) := ReadFields(c, count, depth).value;
    Glue(Little(4, count), EncodeFields(fields), rest);
  }

  lemma {:induction false} FieldsBack(b: Bytes, count: nat, depth: nat)
    requires depth <= MAX_DEPTH + 1 && ReadFields(b, count, depth).Ok?
    ensures var (fields, rest) := ReadFields(b, count, depth).value;
            |fields| == count && FieldsFit(fields, depth) && b == EncodeFields(fields) + rest
    decreases MAX_DEPTH + 1 - depth, 1, count
  {
    hide EncodeArgument, ReadArgument, ArgumentFits, EncodeText, ReadText, TextFits;
    if count != 0 {
      TextBack(b);
      var (name, c) := ReadText(b).value;
      ArgumentBack(c, depth);
      var (value, d) := ReadArgument(c, depth).value;
      FieldsBack(d, count - 1, depth);
      var (tail, rest) := ReadFields(d, count - 1, depth).value;
      var fields := [Field(name, value)] + tail;
      assert fields[1..] == tail;
      Glue(EncodeArgument(value), EncodeFields(tail), rest);
      Glue(EncodeText(name), EncodeArgument(value) + EncodeFields(tail), rest);
    }
  }

  lemma BindingBack(b: Bytes)
    requires ReadBinding(b).Ok?
    ensures var (binding, rest) := ReadBinding(b).value;
            (binding.TensorStore? ==> TextFits(binding.key)) && b == EncodeBinding(binding) + rest
  {
    Limits();
    LittleBack(b, 1);
    var (tag, c) := ReadLittle(b, 1).value;
    if tag == 2 {
      TextBack(c);
      var (key, rest) := ReadText(c).value;
      Glue([tag], EncodeText(key), rest);
    }
  }

  lemma DimensionBack(b: Bytes)
    requires ReadLittle(b, 8).Ok?
    ensures var (d, rest) := ReadLittle(b, 8).value; d < U64_LIMIT && b == EncodeInt(d) + rest
  {
    Limits();
    LittleBack(b, 8);
    assert ReadLittle(b, 8).value.0 % U64_LIMIT == ReadLittle(b, 8).value.0;
  }

  lemma {:induction false} DimensionsBack(b: Bytes, count: nat)
    requires ReadDimensions(b, count).Ok?
    ensures var (dims, rest) := ReadDimensions(b, count).value;
            |dims| == count && DimensionsFit(dims) && b == EncodeDimensions(dims) + rest
    decreases count
  {
    if count != 0 {
      DimensionBack(b);
      hide ReadLittle, EncodeInt;
      var (d, c) := ReadLittle(b, 8).value;
      DimensionsBack(c, count - 1);
      var (tail, rest) := ReadDimensions(c, count - 1).value;
      var dims: seq<int> := [d] + tail;
      assert dims[1..] == tail;
      Glue(EncodeInt(d), EncodeDimensions(tail), rest);
    }
  }

  lemma ShapeBack(b: Bytes)
    requires ReadShape(b).Ok?
    ensures var (shape, rest) := ReadShape(b).value;
            (shape.Some? ==> |shape.value| < U16_LIMIT && DimensionsFit(shape.value))
            && b == EncodeShape(shape) + rest
  {
    Limits();
    LittleBack(b, 1);
    var (tag, c) := ReadLittle(b, 1).value;
    if tag == 1 {
      LittleBack(c, 2);
      var (rank, d) := ReadLittle(c, 2).value;
      DimensionsBack(d, rank);
      var (dims, rest) := ReadDimensions(d, rank).value;
      Glue(Little(2, rank), EncodeDimensions(dims), rest);
      Glue([tag], Little(2, rank) + EncodeDimensions(dims), rest);
    }
  }

  lemma HeadBack(b: Bytes)
    requires ReadHead(b).Ok?
    ensures var (head, rest) := ReadHead(b).value;
            && TextFits(head.name) && TextFits(head.op) && TextFits(head.target)
            && !head.dtype.torch && !head.dtype.dtype.Unsupported?
            && b == EncodeText(head.name) + (EncodeText(head.op) + (EncodeText(head.target)
                      + Little(1, DtypeTag(head.dtype.dtype)))) + rest
  {
    TextBack(b);
    var (name, c) := ReadText(b).value;
    TextBack(c);
    var (op, d) := ReadText(c).value;
    TextBack(d);
    var (target, e) := ReadText(d).value;
    LittleBack(e, 1);
    var (tag, rest) := ReadLittle(e, 1).value;
    Glue(EncodeText(target), Little(1, tag), rest);
    Glue(EncodeText(op), EncodeText(target) + Little(1, tag), rest);
    Glue(EncodeText(name), EncodeText(op) + (EncodeText(target) + Little(1, tag)), rest);
  }

  lemma BodyBack(b: Bytes, head: Head)
    requires ReadBody(b, head).Ok?
    ensures var (n, rest) := ReadBody(b, head).value;
            && Head(n.name, n.op, n.target, n.dtype) == head
            && (n.binding.TensorStore? ==> TextFits(n.binding.key))
            && (n.shape.Some? ==> |n.shape.value| < U16_LIMIT && DimensionsFit(n.shape.value))
            && |n.inputs| < U32_LIMIT && TextsFit(n.inputs)
            && |n.args| < U32_LIMIT && ArgumentsFit(n.args, 0)
            && |n.kwargs| < U32_LIMIT && FieldsFit(n.kwargs, 0)
            && b == EncodeBody(n) + rest
  {
    BindingBack(b);
    var c := ReadBinding(b).value.1;
    ShapeBack(c);
    var d := ReadShape(c).value.1;
    TextListBack(d);
    var e := ReadTextList(d).value.1;
    ArgumentListBack(e, 0);
    var h := ReadArgumentList(e, 0).value.1;
    FieldListBack(h, 0);
    var (n, rest) := ReadBody(b, head).value;
    var args, kwargs := EncodeArgumentList(n.args), EncodeFieldList(n.kwargs);
    Glue(args, kwargs, rest);
    Glue(EncodeTextList(n.inputs), args + kwargs, rest);
    Glue(EncodeShape(n.shape), EncodeTextList(n.inputs) + (args + kwargs), rest);
    Glue(EncodeBinding(n.binding), EncodeShape(n.shape) + (EncodeTextList(n.inputs) + (args + kwargs)), rest);
  }

  lemma NodeBack(b: Bytes)
    requires ReadNode(b).Ok?
    ensures var (n, rest) := ReadNode(b).value;
            NodeFits(n) && Canonical(n) == n && b == EncodeNode(n) + rest
  {
    HeadBack(b);
    var (head, c) := ReadHead(b).value;
    BodyBack(c, head);
    var (n, rest) := ReadBody(c, head).value;
    Glue(EncodeHead(n), EncodeBody(n), rest);
  }

  lemma {:induction false} NodesBack(b: Bytes, count: nat)
    requires ReadNodes(b, count).Ok?
    ensures var (nodes, rest) := ReadNodes(b, count).value;
            && |nodes| == count && b == EncodeNodes(nodes) + rest
            && (forall i :: 0 <= i < |nodes| ==> NodeFits(nodes[i]) && Canonical(nodes[i]) == nodes[i])
    decreases count
  {
    hide ReadNode, EncodeNode, NodeFits;
    if count != 0 {
      NodeBack(b);
      var (n, c) := ReadNode(b).value;
      NodesBack(c, count - 1);
      var (tail, rest) := ReadNodes(c, count - 1).value;
      assert ([n] + tail)[1..] == tail;
      Glue(EncodeNode(n), EncodeNodes(tail), rest);
    }
  }

  // ---------------------------------------------------------------------------------------
  // Whole files
  // ---------------------------------------------------------------------------------------

  function CanonicalManifest(m: Manifest): Manifest {
    m.(nodes := CanonicalNodes(m.nodes))
  }

  lemma HeaderCut(nodeCount: nat, outputCount: nat)
    requires nodeCount < U32_LIMIT && outputCount < U32_LIMIT
    ensures CheckHeader(EncodeHeader(nodeCount, outputCount)) == Ok((nodeCount, outputCount))
  {
    Limits();
    hide Little, FromLittle, Limit;
    FiveParts(MAGIC, Little(2, VERSION), Little(2, MANIFEST_VERSION), Little(4, nodeCount), Little(4, outputCount));
    FromLittleOfLittle(2, VERSION);
    FromLittleOfLittle(2, MANIFEST_VERSION);
    FromLittleOfLittle(4, nodeCount);
    FromLittleOfLittle(4, outputCount);
  }

  /** The fields of a header are where the decoder looks for them. */
  lemma FiveParts(a: Bytes, b: Bytes, c: Bytes, d: Bytes, e: Bytes)
    requires |a| == 8 && |b| == |c| == 2 && |d| == |e| == 4
    ensures var h := a + b + c + d + e;
            |h| == 20 && h[..8] == a && h[8..10] == b && h[10..12] == c && h[12..16] == d && h[16..20] == e
  {
  }

  lemma HeaderBack(raw: Bytes)
    requires |raw| == 20 && CheckHeader(raw).Ok?
    ensures var (nodeCount, outputCount) := CheckHeader(raw).value;
            nodeCount < U32_LIMIT && outputCount < U32_LIMIT && raw == EncodeHeader(nodeCount, outputCount)
  {
    Limits();
    LittleOfFromLittle(raw[8..10]);
    LittleOfFromLittle(raw[10..12]);
    LittleOfFromLittle(raw[12..16]);
    LittleOfFromLittle(raw[16..20]);
    assert raw == raw[..8] + raw[8..10] + raw[10..12] + raw[12..16] + raw[16..20];
  }

  /**
   What the decoder answers on every input that agrees with a file as far as both go: the manifest
   on the file itself, truncation on each strict prefix, trailing bytes on each extension.
   */
  lemma ManifestCut(m: Manifest, data: Bytes)
    requires ManifestFits(m) && Agree(EncodeManifest(m), data)
    ensures DecodeManifest(data)
            == if |data| < |EncodeManifest(m)| then Err(Truncated)
               else if |data| > |EncodeManifest(m)| then Err(TrailingBytes)
               else Ok(CanonicalManifest(m))
  {
    var h, n, o := EncodeHeader(|m.nodes|, |m.outputs|), EncodeNodes(m.nodes), EncodeTexts(m.outputs);
    hide EncodeHeader, CheckHeader, ReadNodes, ReadTexts, EncodeNodes, EncodeTexts, NodeFits;
    Split(h, n + o, data);
    RawCut(h, data);
    HeaderCut(|m.nodes|, |m.outputs|);
    if h <= data {
      assert data[..20] == h;
      AfterHeader(m, data[20..]);
    }
  }

  /** The same for what follows the header. */
  lemma AfterHeader(m: Manifest, b: Bytes)
    requires ManifestFits(m) && Agree(EncodeNodes(m.nodes) + EncodeTexts(m.outputs), b)
    ensures var n, o := EncodeNodes(m.nodes), EncodeTexts(m.outputs);
            && ReadNodes(b, |m.nodes|) == Cut(n, CanonicalNodes(m.nodes), b)
            && (n <= b ==> ReadTexts(b[|n|..], |m.outputs|) == Cut(o, m.outputs, b[|n|..]))
            && (n <= b ==> Agree(o, b[|n|..]) && (n + o <= b <==> o <= b[|n|..]))
            && (n + o <= b ==> n <= b && b[|n + o|..] == b[|n|..][|o|..])
            && Agree(n, b)
  {
    var n, o := EncodeNodes(m.nodes), EncodeTexts(m.outputs);
    hide ReadNodes, ReadTexts, EncodeNodes, EncodeTexts, NodeFits, Cut;
    Split(n, o, b);
    NodesCut(m.nodes, b);
    if n <= b {
      TextsCut(m.outputs, b[|n|..]);
    }
  }

  /**
   The decoder accepts exactly the files that encode a fitting manifest in canonical form, each as
   that manifest: the two functions are mutual inverses.
   */
  lemma DecodesExactlyEncodings(data: Bytes, m: Manifest)
    ensures DecodeManifest(data) == Ok(m)
            <==> ManifestFits(m) && CanonicalManifest(m) == m && EncodeManifest(m) == data
  {
    hide EncodeManifest, ManifestFits, DecodeManifest;
    if DecodeManifest(data) == Ok(m) {
      ManifestBack(data, m);
    }
    if ManifestFits(m) && CanonicalManifest(m) == m && EncodeManifest(m) == data {
      ManifestCut(m, data);
    }
  }

  lemma ManifestBack(data: Bytes, m: Manifest)
    requires DecodeManifest(data) == Ok(m)
    ensures ManifestFits(m) && CanonicalManifest(m) == m && EncodeManifest(m) == data
  {
    HeaderBack(data[..20]);
    var (nodeCount, outputCount) := CheckHeader(data[..20]).value;
    var b := data[20..];
    assert data == data[..20] + b;
    NodesBack(b, nodeCount);
    var (nodes, c) := ReadNodes(b, nodeCount).value;
    TextsBack(c, outputCount);
    hide EncodeHeader, CheckHeader, ReadNodes, ReadTexts, EncodeNodes, EncodeTexts, NodeFits;
    var (outputs, rest) := ReadTexts(c, outputCount).value;
    assert EncodeTexts(outputs) + rest == EncodeTexts(outputs);
    assert CanonicalNodes(nodes) == nodes;
  }

  /** Two fitting manifests share a file only if they differ in nothing but torch prefixes. */
  lemma EncodingIsInjective(m: Manifest, m': Manifest)
    requires ManifestFits(m) && ManifestFits(m') && EncodeManifest(m) == EncodeManifest(m')
    ensures CanonicalManifest(m) == CanonicalManifest(m')
  {
    ManifestCut(m, EncodeManifest(m));
    ManifestCut(m', EncodeManifest(m));
  }
}
