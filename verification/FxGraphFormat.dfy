/**
 The graph transport down to its bytes: which numbers fit, how deep arguments may nest, one whole file
 written out, and what each malformed byte is rejected with.
 */
module FxGraphFormat {
  import opened Bytes
  import opened Results
  import opened Utf8
  import opened FxGraph
  import opened FxGraphLaws

  // ---------------------------------------------------------------------------------------
  // What fits
  // ---------------------------------------------------------------------------------------

  /** The bit patterns of IEEE 754 doubles below infinity are the finite ones, with either sign. */
  lemma FiniteExactly(d: Double)
    ensures ArgumentFits(Float(d), 0) <==> d % 0x8000_0000_0000_0000 < 0x7FF0_0000_0000_0000
    ensures ReadScalar(5, Little(8, d))
         == if d % 0x8000_0000_0000_0000 < 0x7FF0_0000_0000_0000 then Ok((Float(d), [])) else Err(NonFinite)
  {
    var unit := 0x10_0000_0000_0000;
    var high, low := d / unit, d % unit;
    assert d == high * unit + low;
    assert high / 0x800 <= 1;
    assert d % 0x8000_0000_0000_0000 == high % 0x800 * unit + low;
    Limits();
    FromLittleOfLittle(8, d);
    hide Little, FromLittle;
    assert Little(8, d)[..8] == Little(8, d) && Little(8, d)[8..] == [];
  }

  /** `n` lists inside each other around nothing. */
  function Nested(n: nat): Argument {
    if n == 0 then Null else List([Nested(n - 1)])
  }

  /** Arguments nest up to 64 levels below the outermost one. */
  lemma DepthExactly(n: nat)
    ensures ArgumentFits(Nested(n), 0) <==> n <= 64
  {
    NestedFits(n, 0);
  }

  lemma {:induction false} NestedFits(n: nat, depth: nat)
    ensures ArgumentFits(Nested(n), depth) <==> depth + n <= 64
  {
    if n > 0 {
      NestedFits(n - 1, depth + 1);
      assert ArgumentsFit([Nested(n - 1)], depth + 1) == ArgumentFits(Nested(n - 1), depth + 1);
    }
  }

  // ---------------------------------------------------------------------------------------
  // One file, byte for byte
  // ---------------------------------------------------------------------------------------

  /** The dtypes of the transport's table; the tag of each is its place. */
  const TABLE: seq<Dtype> :=
    [Float32, Float16, BFloat16, Int64, Int32, Int8, Boolean, UInt8, Q8_0, Q4_K, Q5_K, Q6_K, Q5_0, Q4_0, IQ4_XS,
     Tile32_Affine4, Tile32_Affine8, EXL3_4]

  /** One argument of every kind. */
  function Arguments(): (r: seq<Argument>)
    ensures |r| == 12
  {
    [NodeRef([120]), Null, Ellipsis, Bool(true), Int(-2), Float(0x3FF8_0000_0000_0000), Str([233]), Symbol([0x1F600]),
     List([Null, Bool(false)]), Tuple([Ellipsis]), Mapping([Field([107], Null)]), Slice(Null, Int(258), Ellipsis)]
  }

  /** What `Arguments` is written as: the tag of each, and what follows it. */
  function ArgumentBytes(): (r: seq<Bytes>)
    ensures |r| == 12
  {
    [[0, 1, 0, 0, 0, 120],
     [1],
     [2],
     [3, 1],
     [4, 254, 255, 255, 255, 255, 255, 255, 255],
     [5, 0, 0, 0, 0, 0, 0, 248, 63],
     [6, 2, 0, 0, 0, 0xC3, 0xA9],
     [7, 4, 0, 0, 0, 0xF0, 0x9F, 0x98, 0x80],
     [8, 2, 0, 0, 0, 1, 3, 0],
     [9, 1, 0, 0, 0, 2],
     [10, 1, 0, 0, 0, 1, 0, 0, 0, 107, 1],
     [11, 1, 4, 2, 1, 0, 0, 0, 0, 0, 0, 2]]
  }

  function Concatenated(parts: seq<Bytes>): Bytes {
    if parts == [] then [] else parts[0] + Concatenated(parts[1..])
  }

  /** A runtime input of two dimensions. */
  function Input(dtype: Dtype): Node {
    Node([120], [112], [116], [], Some([2, 300]), DtypeName(false, dtype), Runtime, [], [])
  }

  /** A call with an argument of every kind. */
  function Call(): Node {
    Node([121], [99], [97, 100], [[120], [119]], None, DtypeName(false, Float32), Computed, Arguments(),
         [Field([98], Bool(false))])
  }

  /** A stored weight without dimensions. */
  function Weight(): Node {
    Node([119], [103], [], [], Some([]), DtypeName(false, EXL3_4), TensorStore([107, 49]), [], [])
  }

  function Sample(dtype: Dtype): Manifest {
    Manifest(2, [Input(dtype), Call(), Weight()], [[121], [120]])
  }

  /** The name, op, target and dtype; the binding; the shape; the inputs; the arguments by position; by keyword. */
  function FirstNode(tag: Byte): Bytes {
    ([1, 0, 0, 0, 120] + [1, 0, 0, 0, 112] + [1, 0, 0, 0, 116] + [tag])
    + [1]
    + ([1] + [2, 0] + [2, 0, 0, 0, 0, 0, 0, 0] + [44, 1, 0, 0, 0, 0, 0, 0])
    + [0, 0, 0, 0] + [0, 0, 0, 0] + [0, 0, 0, 0]
  }

  function SecondNode(): Bytes {
    ([1, 0, 0, 0, 121] + [1, 0, 0, 0, 99] + [2, 0, 0, 0, 97, 100] + [0])
    + [0]
    + [0]
    + ([2, 0, 0, 0] + [1, 0, 0, 0, 120] + [1, 0, 0, 0, 119])
    + ([12, 0, 0, 0] + Concatenated(ArgumentBytes()))
    + [1, 0, 0, 0, 1, 0, 0, 0, 98, 3, 0]
  }

  function ThirdNode(): Bytes {
    ([1, 0, 0, 0, 119] + [1, 0, 0, 0, 103] + [0, 0, 0, 0] + [17])
    + [2, 2, 0, 0, 0, 107, 49]
    + [1, 0, 0]
    + [0, 0, 0, 0] + [0, 0, 0, 0] + [0, 0, 0, 0]
  }

  /** The letters LLMOPTFX, both versions, and the counts of nodes and outputs. */
  function Prologue(): Bytes {
    [76, 76, 77, 79, 80, 84, 70, 88] + [2, 0] + [2, 0] + [3, 0, 0, 0] + [2, 0, 0, 0]
  }

  function Epilogue(): Bytes {
    [1, 0, 0, 0, 121] + [1, 0, 0, 0, 120]
  }

  /** The header, the nodes and the outputs. */
  function File(tag: Byte): Bytes {
    Prologue() + (FirstNode(tag) + SecondNode() + ThirdNode()) + Epilogue()
  }

  lemma Small4(n: nat)
    requires n < 256
    ensures Little(4, n) == [n, 0, 0, 0]
  {
    assert Little(3, 0) == [0] + Little(2, 0);
  }

  lemma Zeros(width: nat)
    requires width <= 8
    ensures Little(width, 0) == seq(width, _ => 0)
  {
    if width > 0 {
      Zeros(width - 1);
    }
  }

  lemma Small8(n: nat)
    requires n < 0x1_0000
    ensures Little(8, n) == [n % 256, n / 256, 0, 0, 0, 0, 0, 0]
  {
    Zeros(6);
    assert Little(7, n / 256) == [n / 256] + Little(6, 0);
  }

  lemma LittleStep(width: nat, n: nat, m: nat, low: Byte)
    requires width > 0 && n == 256 * m + low
    ensures Little(width, n) == [low] + Little(width - 1, m)
  {
  }

  lemma {:induction false} Ones(width: nat, n: nat)
    requires width <= 7 && n + 1 == Limit(width)
    ensures Little(width, n) == seq(width, _ => 255)
  {
    if width > 0 {
      var m := Limit(width - 1) - 1;
      Ones(width - 1, m);
      LittleStep(width, n, m, 255);
      hide Little, Limit;
      assert [255 as Byte] + seq(width - 1, _ => 255) == seq(width, _ => 255);
    }
  }

  lemma MinusTwo()
    ensures EncodeInt(-2) == [254, 255, 255, 255, 255, 255, 255, 255]
  {
    var n := 0xFFFF_FFFF_FFFF_FFFE;
    Limits();
    assert Limit(7) == 0x100_0000_0000_0000;
    Ones(7, n / 256);
    assert -2 % U64_LIMIT == n;
    assert n % 256 == 254;
  }

  lemma OneAndAHalf()
    ensures Little(8, 0x3FF8_0000_0000_0000) == [0, 0, 0, 0, 0, 0, 248, 63]
  {
    assert Little(2, 0x3FF8) == [248, 63] by {
      assert Little(1, 63) == [63];
    }
    assert Little(4, 0x3FF8_0000) == [0, 0] + Little(2, 0x3FF8) by {
      assert Little(3, 0x3FF8_00) == [0] + Little(2, 0x3FF8);
    }
    assert Little(6, 0x3FF8_0000_0000) == [0, 0] + Little(4, 0x3FF8_0000) by {
      assert Little(5, 0x3FF8_0000_00) == [0] + Little(4, 0x3FF8_0000);
    }
    assert Little(7, 0x3FF8_0000_0000_00) == [0] + Little(6, 0x3FF8_0000_0000);
  }

  lemma TextOfOne(c: CodePoint)
    requires c < 0x80
    ensures EncodeText([c]) == [1, 0, 0, 0, c] && TextFits([c])
  {
    Small4(1);
    assert Encode([c]) == [c] + Encode([]);
  }

  lemma TextOfTwo(c: CodePoint, d: CodePoint)
    requires c < 0x80 && d < 0x80
    ensures EncodeText([c, d]) == [2, 0, 0, 0, c, d] && TextFits([c, d])
  {
    Small4(2);
    assert [c, d][1..] == [d];
    assert Encode([d]) == [d] + Encode([]);
    assert Encode([c, d]) == [c] + Encode([d]);
  }

  lemma AccentedText()
    ensures EncodeText([233]) == [2, 0, 0, 0, 0xC3, 0xA9] && TextFits([233])
  {
    Small4(2);
    assert Encode([233]) == EncodeChar(233) + Encode([]);
  }

  lemma FaceText()
    ensures EncodeText([0x1F600]) == [4, 0, 0, 0, 0xF0, 0x9F, 0x98, 0x80] && TextFits([0x1F600])
  {
    Small4(4);
    assert Encode([0x1F600]) == EncodeChar(0x1F600) + Encode([]);
  }

  lemma NoText()
    ensures EncodeText([]) == [0, 0, 0, 0] && TextFits([])
  {
    Small4(0);
  }

  lemma TextArgument(a: Argument, s: Text, b: Bytes)
    requires EncodeText(s) == b && TextFits(s)
    ensures a == NodeRef(s) ==> EncodeArgument(a) == [0] + b && ArgumentFits(a, 0)
    ensures a == Str(s) ==> EncodeArgument(a) == [6] + b && ArgumentFits(a, 0)
    ensures a == Symbol(s) ==> EncodeArgument(a) == [7] + b && ArgumentFits(a, 0)
  {
    hide EncodeText, TextFits;
  }

  lemma TextsAre(i: nat)
    requires i == 0 || i == 6 || i == 7
    ensures Arguments()[i] == if i == 0 then NodeRef([120]) else if i == 6 then Str([233]) else Symbol([0x1F600])
    ensures ArgumentBytes()[i] == if i == 0 then [0] + [1, 0, 0, 0, 120]
                                  else if i == 6 then [6] + [2, 0, 0, 0, 0xC3, 0xA9]
                                  else [7] + [4, 0, 0, 0, 0xF0, 0x9F, 0x98, 0x80]
  {
  }

  lemma TextArguments(i: nat)
    requires i == 0 || i == 6 || i == 7
    ensures EncodeArgument(Arguments()[i]) == ArgumentBytes()[i] && ArgumentFits(Arguments()[i], 0)
  {
    TextOfOne(120);
    hide *;
    AccentedText();
    FaceText();
    TextsAre(i);
    TextArgument(Arguments()[i], [120], [1, 0, 0, 0, 120]);
    TextArgument(Arguments()[i], [233], [2, 0, 0, 0, 0xC3, 0xA9]);
    TextArgument(Arguments()[i], [0x1F600], [4, 0, 0, 0, 0xF0, 0x9F, 0x98, 0x80]);
  }

  lemma NumberArguments(i: nat)
    requires 1 <= i <= 5
    ensures EncodeArgument(Arguments()[i]) == ArgumentBytes()[i] && ArgumentFits(Arguments()[i], 0)
  {
    MinusTwo();
    OneAndAHalf();
    hide Little, EncodeText, EncodeInt;
  }

  lemma Items()
    ensures EncodeArgumentList([Null, Bool(false)]) == [2, 0, 0, 0] + [1, 3, 0]
    ensures EncodeArgumentList([Ellipsis]) == [1, 0, 0, 0] + [2]
  {
    Small4(1);
    Small4(2);
    var two, one := [Null, Bool(false)], [Ellipsis];
    assert two[1..] == [Bool(false)] && two[1..][1..] == [] && one[1..] == [];
    assert EncodeArguments([Bool(false)]) == [3, 0];
    assert EncodeArguments(two) == [1] + [3, 0];
    assert EncodeArguments(one) == [2];
    hide Little, EncodeArguments;
  }

  lemma ListParts(items: seq<Argument>, b: Bytes)
    requires EncodeArgumentList(items) == b
    ensures EncodeArgument(List(items)) == [8] + b && EncodeArgument(Tuple(items)) == [9] + b
  {
    hide EncodeArgumentList;
  }

  lemma ListsFit()
    ensures ArgumentFits(List([Null, Bool(false)]), 0) && ArgumentFits(Tuple([Ellipsis]), 0)
  {
  }

  lemma ListsAre(i: nat)
    requires 8 <= i < 10
    ensures Arguments()[i] == if i == 8 then List([Null, Bool(false)]) else Tuple([Ellipsis])
    ensures ArgumentBytes()[i] == if i == 8 then [8] + ([2, 0, 0, 0] + [1, 3, 0]) else [9] + ([1, 0, 0, 0] + [2])
  {
  }

  lemma Lists(i: nat)
    requires 8 <= i < 10
    ensures EncodeArgument(Arguments()[i]) == ArgumentBytes()[i] && ArgumentFits(Arguments()[i], 0)
  {
    hide *;
    Items();
    ListsFit();
    ListsAre(i);
    ListParts([Null, Bool(false)], [2, 0, 0, 0] + [1, 3, 0]);
    ListParts([Ellipsis], [1, 0, 0, 0] + [2]);
  }

  lemma MappingIs()
    ensures EncodeArgument(Mapping([Field([107], Null)])) == [10, 1, 0, 0, 0, 1, 0, 0, 0, 107, 1]
    ensures ArgumentFits(Mapping([Field([107], Null)]), 0)
  {
    Small4(1);
    TextOfOne(107);
    var fields := [Field([107], Null)];
    assert fields[1..] == [];
    assert EncodeArgument(Null) == [1];
    hide Little, EncodeText, TextFits, EncodeArgument;
    assert EncodeFields(fields) == [1, 0, 0, 0, 107] + ([1] + []);
    assert EncodeFieldList(fields) == [1, 0, 0, 0] + [1, 0, 0, 0, 107, 1];
    MappingParts(fields, [1, 0, 0, 0, 1, 0, 0, 0, 107, 1]);
  }

  lemma MappingParts(fields: seq<Field>, b: Bytes)
    requires EncodeFieldList(fields) == b
    ensures EncodeArgument(Mapping(fields)) == [10] + b
  {
    hide EncodeFieldList;
  }

  lemma Plain()
    ensures EncodeArgument(Null) == [1] && EncodeArgument(Ellipsis) == [2]
    ensures EncodeArgument(Int(258)) == [4] + EncodeInt(258)
  {
    hide EncodeInt;
  }

  lemma SliceFits()
    ensures ArgumentFits(Slice(Null, Int(258), Ellipsis), 0)
  {
  }

  lemma SliceIs()
    ensures EncodeArgument(Slice(Null, Int(258), Ellipsis)) == [11, 1, 4, 2, 1, 0, 0, 0, 0, 0, 0, 2]
    ensures ArgumentFits(Slice(Null, Int(258), Ellipsis), 0)
  {
    hide *;
    Plain();
    SliceFits();
    IntBytes(258);
    SliceParts(Null, Int(258), Ellipsis, [1], [4, 2, 1, 0, 0, 0, 0, 0, 0], [2]);
  }

  lemma IntBytes(n: nat)
    requires n < 0x1_0000
    ensures EncodeInt(n) == [n % 256, n / 256, 0, 0, 0, 0, 0, 0]
  {
    Small8(n);
    assert n % U64_LIMIT == n;
  }

  lemma SliceParts(start: Argument, stop: Argument, step: Argument, x: Bytes, y: Bytes, z: Bytes)
    requires EncodeArgument(start) == x && EncodeArgument(stop) == y && EncodeArgument(step) == z
    ensures EncodeArgument(Slice(start, stop, step)) == [11] + (x + (y + z))
  {
    assert EncodeNested(Slice(start, stop, step)) == x + (y + z);
  }

  lemma ArgumentIs(i: nat)
    requires i < 12
    ensures EncodeArgument(Arguments()[i]) == ArgumentBytes()[i] && ArgumentFits(Arguments()[i], 0)
  {
    hide *;
    if 1 <= i <= 5 {
      NumberArguments(i);
    } else if i < 8 {
      TextArguments(i);
    } else if i < 10 {
      Lists(i);
    } else {
      MappingIs();
      SliceIs();
      LastArguments(i);
    }
  }

  lemma LastArguments(i: nat)
    requires 10 <= i < 12
    ensures Arguments()[i] == if i == 10 then Mapping([Field([107], Null)]) else Slice(Null, Int(258), Ellipsis)
    ensures ArgumentBytes()[i] == if i == 10 then [10, 1, 0, 0, 0, 1, 0, 0, 0, 107, 1] else [11, 1, 4, 2, 1, 0, 0, 0, 0, 0, 0, 2]
  {
  }

  lemma {:induction false} ArgumentsAre(items: seq<Argument>, parts: seq<Bytes>)
    requires |items| == |parts|
    requires forall i :: 0 <= i < |items| ==> EncodeArgument(items[i]) == parts[i] && ArgumentFits(items[i], 0)
    ensures EncodeArguments(items) == Concatenated(parts) && ArgumentsFit(items, 0)
  {
    hide EncodeArgument, ArgumentFits;
    if items != [] {
      ArgumentsAre(items[1..], parts[1..]);
    }
  }

  lemma AllArguments()
    ensures EncodeArgumentList(Arguments()) == [12, 0, 0, 0] + Concatenated(ArgumentBytes())
    ensures ArgumentsFit(Arguments(), 0)
  {
    Small4(12);
    hide Little, EncodeArguments, ArgumentsFit;
    forall i | 0 <= i < 12
      ensures EncodeArgument(Arguments()[i]) == ArgumentBytes()[i] && ArgumentFits(Arguments()[i], 0)
    {
      ArgumentIs(i);
    }
    hide Arguments, ArgumentBytes, EncodeArgument, ArgumentFits;
    ArgumentsAre(Arguments(), ArgumentBytes());
  }

  lemma Empty()
    ensures EncodeTextList([]) == [0, 0, 0, 0] && EncodeArgumentList([]) == [0, 0, 0, 0] && EncodeFieldList([]) == [0, 0, 0, 0]
  {
    Small4(0);
    hide Little;
  }

  lemma FlagKeyword()
    ensures EncodeFieldList([Field([98], Bool(false))]) == [1, 0, 0, 0, 1, 0, 0, 0, 98, 3, 0]
    ensures FieldsFit([Field([98], Bool(false))], 0)
  {
    Small4(1);
    TextOfOne(98);
    hide Little, EncodeText, TextFits;
    var fields := [Field([98], Bool(false))];
    assert fields[1..] == [];
    assert EncodeFields(fields) == [1, 0, 0, 0, 98] + ([3, 0] + []);
  }

  lemma TwoInputs()
    ensures EncodeTextList([[120], [119]]) == [2, 0, 0, 0] + [1, 0, 0, 0, 120] + [1, 0, 0, 0, 119]
    ensures TextsFit([[120], [119]])
  {
    Small4(2);
    TextOfOne(120);
    TextOfOne(119);
    hide Little, EncodeText, TextFits;
    var texts: seq<Text> := [[120], [119]];
    assert texts[1..] == [[119]] && texts[1..][1..] == [];
    assert EncodeTexts([[119]]) == [1, 0, 0, 0, 119] + [];
  }

  lemma TwoDimensions()
    ensures EncodeShape(Some([2, 300])) == [1] + [2, 0] + [2, 0, 0, 0, 0, 0, 0, 0] + [44, 1, 0, 0, 0, 0, 0, 0]
  {
    IntBytes(2);
    IntBytes(300);
    hide *;
    ShapeOfTwo(2, 300, [2, 0, 0, 0, 0, 0, 0, 0], [44, 1, 0, 0, 0, 0, 0, 0]);
  }

  lemma ShapeOfTwo(x: int, y: int, b: Bytes, c: Bytes)
    requires EncodeInt(x) == b && EncodeInt(y) == c
    ensures EncodeShape(Some([x, y])) == [1] + [2, 0] + b + c
  {
    assert Little(2, 2) == [2, 0] by {
      assert Little(1, 0) == [0];
    }
    hide Little, EncodeInt;
    var dims := [x, y];
    assert dims[1..] == [y] && dims[1..][1..] == [];
    assert EncodeDimensions([y]) == c + [];
    assert EncodeDimensions(dims) == b + EncodeDimensions([y]);
    assert [1] + ([2, 0] + (b + c)) == [1] + [2, 0] + b + c;
  }

  lemma NoDimensions()
    ensures EncodeShape(Some([])) == [1, 0, 0] && EncodeShape(None) == [0]
  {
    Zeros(2);
    hide Little;
  }

  lemma TableTags(tag: nat)
    requires tag < 18
    ensures Little(1, DtypeTag(TABLE[tag])) == [tag] && !TABLE[tag].Unsupported?
  {
    assert Little(1, tag) == [tag];
  }

  /** A node is its parts in this order. */
  lemma NodeParts(n: Node, name: Bytes, op: Bytes, target: Bytes, tag: Byte, binding: Bytes, shape: Bytes,
                  inputs: Bytes, args: Bytes, kwargs: Bytes)
    requires EncodeText(n.name) == name && EncodeText(n.op) == op && EncodeText(n.target) == target
    requires Little(1, DtypeTag(n.dtype.dtype)) == [tag] && EncodeBinding(n.binding) == binding
    requires EncodeShape(n.shape) == shape && EncodeTextList(n.inputs) == inputs
    requires EncodeArgumentList(n.args) == args && EncodeFieldList(n.kwargs) == kwargs
    ensures EncodeNode(n) == (name + op + target + [tag]) + binding + shape + inputs + args + kwargs
  {
    assert EncodeHead(n) == name + (op + (target + [tag]));
    assert EncodeBody(n) == binding + (shape + (inputs + (args + kwargs)));
    hide *;
    Regroup4(name, op, target, [tag]);
    Regroup5(name + op + target + [tag], binding, shape, inputs, args, kwargs);
    NodeIsHeadAndBody(n);
  }

  lemma NodeIsHeadAndBody(n: Node)
    ensures EncodeNode(n) == EncodeHead(n) + EncodeBody(n)
  {
    hide EncodeHead, EncodeBody;
  }

  lemma Regroup4(a: Bytes, b: Bytes, c: Bytes, d: Bytes)
    ensures a + (b + (c + d)) == a + b + c + d
  {
  }

  lemma Regroup5(h: Bytes, a: Bytes, b: Bytes, c: Bytes, d: Bytes, e: Bytes)
    ensures h + (a + (b + (c + (d + e)))) == h + a + b + c + d + e
  {
  }

  lemma FirstIs(tag: nat)
    requires tag < 18
    ensures EncodeNode(Input(TABLE[tag])) == FirstNode(tag) && NodeFits(Input(TABLE[tag]))
  {
    TextOfOne(120);
    TextOfOne(112);
    TextOfOne(116);
    TableTags(tag);
    TwoDimensions();
    Empty();
    hide Little, EncodeText, TextFits, EncodeShape, EncodeTextList, EncodeArgumentList, EncodeFieldList, DtypeTag, EncodeNode;
    NodeParts(Input(TABLE[tag]), [1, 0, 0, 0, 120], [1, 0, 0, 0, 112], [1, 0, 0, 0, 116], tag, [1],
              [1] + [2, 0] + [2, 0, 0, 0, 0, 0, 0, 0] + [44, 1, 0, 0, 0, 0, 0, 0],
              [0, 0, 0, 0], [0, 0, 0, 0], [0, 0, 0, 0]);
  }

  lemma SecondIs()
    ensures EncodeNode(Call()) == SecondNode() && NodeFits(Call())
  {
    hide *;
    CallTexts();
    NoDimensions();
    TwoInputs();
    AllArguments();
    FlagKeyword();
    CallFits();
    CallParts([1, 0, 0, 0, 121], [1, 0, 0, 0, 99], [2, 0, 0, 0, 97, 100],
              [2, 0, 0, 0] + [1, 0, 0, 0, 120] + [1, 0, 0, 0, 119],
              [12, 0, 0, 0] + Concatenated(ArgumentBytes()), [1, 0, 0, 0, 1, 0, 0, 0, 98, 3, 0]);
    SecondParts();
  }

  lemma CallTexts()
    ensures EncodeText([121]) == [1, 0, 0, 0, 121] && EncodeText([99]) == [1, 0, 0, 0, 99]
    ensures EncodeText([97, 100]) == [2, 0, 0, 0, 97, 100]
  {
    TextOfOne(121);
    TextOfOne(99);
    TextOfTwo(97, 100);
    hide *;
  }

  lemma CallParts(name: Bytes, op: Bytes, target: Bytes, inputs: Bytes, args: Bytes, kwargs: Bytes)
    requires EncodeText([121]) == name && EncodeText([99]) == op && EncodeText([97, 100]) == target
    requires EncodeShape(None) == [0] && EncodeTextList([[120], [119]]) == inputs
    requires EncodeArgumentList(Arguments()) == args && EncodeFieldList([Field([98], Bool(false))]) == kwargs
    ensures EncodeNode(Call()) == (name + op + target + [0]) + [0] + [0] + inputs + args + kwargs
  {
    TableTags(0);
    hide EncodeText, EncodeShape, EncodeTextList, EncodeArgumentList, EncodeFieldList, EncodeNode, Arguments;
    NodeParts(Call(), name, op, target, 0, [0], [0], inputs, args, kwargs);
  }

  lemma SecondParts()
    ensures SecondNode()
         == ([1, 0, 0, 0, 121] + [1, 0, 0, 0, 99] + [2, 0, 0, 0, 97, 100] + [0]) + [0] + [0]
            + ([2, 0, 0, 0] + [1, 0, 0, 0, 120] + [1, 0, 0, 0, 119])
            + ([12, 0, 0, 0] + Concatenated(ArgumentBytes())) + [1, 0, 0, 0, 1, 0, 0, 0, 98, 3, 0]
  {
    hide ArgumentBytes, Concatenated;
  }

  lemma CallFits()
    ensures NodeFits(Call())
  {
    TextOfOne(121);
    TextOfOne(99);
    TextOfTwo(97, 100);
    CallListsFit();
    hide TextFits, TextsFit, ArgumentsFit, FieldsFit, EncodeText, Arguments;
  }

  lemma CallListsFit()
    ensures TextsFit([[120], [119]]) && ArgumentsFit(Arguments(), 0) && FieldsFit([Field([98], Bool(false))], 0)
  {
    TwoInputs();
    AllArguments();
    FlagKeyword();
    hide *;
  }

  lemma ThirdIs()
    ensures EncodeNode(Weight()) == ThirdNode() && NodeFits(Weight())
  {
    TextOfOne(119);
    TextOfOne(103);
    NoText();
    TextOfTwo(107, 49);
    TableTags(17);
    NoDimensions();
    Empty();
    hide Little, EncodeText, TextFits, EncodeShape, EncodeTextList, EncodeArgumentList, EncodeFieldList, DtypeTag, EncodeNode;
    NodeParts(Weight(), [1, 0, 0, 0, 119], [1, 0, 0, 0, 103], [0, 0, 0, 0], 17, [2, 2, 0, 0, 0, 107, 49],
              [1, 0, 0], [0, 0, 0, 0], [0, 0, 0, 0], [0, 0, 0, 0]);
  }

  lemma HeaderIs()
    ensures EncodeHeader(3, 2) == Prologue()
  {
    Small4(3);
    Small4(2);
    assert Little(2, 2) == [2, 0] by {
      assert Little(1, 0) == [0];
    }
    hide Little;
  }

  lemma OutputsAre()
    ensures EncodeTexts([[121], [120]]) == Epilogue()
    ensures TextsFit([[121], [120]])
  {
    TextOfOne(121);
    TextOfOne(120);
    hide EncodeText, TextFits;
    var texts: seq<Text> := [[121], [120]];
    assert texts[1..] == [[120]] && texts[1..][1..] == [];
    assert EncodeTexts([[120]]) == [1, 0, 0, 0, 120] + [];
  }

  lemma ThreeNodes(a: Node, b: Node, c: Node)
    ensures EncodeNodes([a, b, c]) == EncodeNode(a) + EncodeNode(b) + EncodeNode(c)
  {
    hide EncodeNode;
    assert [a, b, c][1..] == [b, c] && [b, c][1..] == [c] && [c][1..] == [];
    assert EncodeNodes([c]) == EncodeNode(c) + [];
    assert EncodeNodes([b, c]) == EncodeNode(b) + EncodeNodes([c]);
  }

  lemma InputFits(tag: nat)
    requires tag < 18
    ensures NodeFits(Input(TABLE[tag]))
  {
    FirstIs(tag);
    hide *;
  }

  lemma WeightFits()
    ensures NodeFits(Weight())
  {
    ThirdIs();
    hide *;
  }

  lemma OutputsFit()
    ensures TextsFit([[121], [120]])
  {
    OutputsAre();
    hide *;
  }

  lemma SampleIs(dtype: Dtype)
    ensures Sample(dtype).version == 2 && Sample(dtype).outputs == [[121], [120]]
    ensures Sample(dtype).nodes == [Input(dtype), Call(), Weight()]
  {
    hide Input, Call, Weight;
  }

  lemma ThreeFit(m: Manifest, a: Node, b: Node, c: Node)
    requires m.version == 2 && m.nodes == [a, b, c] && |m.outputs| == 2
    requires NodeFits(a) && NodeFits(b) && NodeFits(c) && TextsFit(m.outputs)
    ensures ManifestFits(m)
  {
    hide NodeFits, TextsFit;
  }

  lemma SampleFits(tag: nat)
    requires tag < 18
    ensures ManifestFits(Sample(TABLE[tag]))
  {
    InputFits(tag);
    CallFits();
    WeightFits();
    OutputsFit();
    SampleIs(TABLE[tag]);
    hide *;
    ThreeFit(Sample(TABLE[tag]), Input(TABLE[tag]), Call(), Weight());
  }

  /** A file of three nodes and two outputs is its parts in this order. */
  lemma FileParts(m: Manifest, a: Node, b: Node, c: Node)
    requires m.nodes == [a, b, c] && |m.outputs| == 2
    ensures EncodeManifest(m) == EncodeHeader(3, 2) + (EncodeNode(a) + EncodeNode(b) + EncodeNode(c)) + EncodeTexts(m.outputs)
  {
    hide EncodeHeader, EncodeNode, EncodeNodes, EncodeTexts;
    ThreeNodes(a, b, c);
    Regroup(EncodeHeader(3, 2), EncodeNode(a) + EncodeNode(b) + EncodeNode(c), EncodeTexts(m.outputs));
  }

  lemma SampleIsFile(tag: nat)
    requires tag < 18
    ensures EncodeManifest(Sample(TABLE[tag])) == File(tag)
  {
    FileIs(tag);
    hide *;
    FirstIs(tag);
    SecondIs();
    ThirdIs();
    HeaderIs();
    OutputsAre();
    SampleIs(TABLE[tag]);
    FileParts(Sample(TABLE[tag]), Input(TABLE[tag]), Call(), Weight());
  }

  lemma FileIs(tag: Byte)
    ensures File(tag) == Prologue() + (FirstNode(tag) + SecondNode() + ThirdNode()) + Epilogue()
  {
    hide FirstNode, SecondNode, ThirdNode, Prologue, Epilogue;
  }

  /** The sample of each dtype is written as this very file, and the file is read as the sample. */
  lemma WholeFile(tag: nat)
    requires tag < 18
    ensures ManifestFits(Sample(TABLE[tag])) && EncodeManifest(Sample(TABLE[tag])) == File(tag)
    ensures DecodeManifest(File(tag)) == Ok(Sample(TABLE[tag]))
  {
    TableTags(tag);
    hide *;
    SampleFits(tag);
    SampleIsFile(tag);
    SampleIsCanonical(TABLE[tag]);
    FxGraphLaws.DecodesExactlyEncodings(File(tag), Sample(TABLE[tag]));
  }

  lemma SampleIsCanonical(dtype: Dtype)
    ensures CanonicalManifest(Sample(dtype)) == Sample(dtype)
  {
    hide Arguments;
    assert CanonicalNodes(Sample(dtype).nodes) == Sample(dtype).nodes;
  }

  lemma Regroup(h: Bytes, nodes: Bytes, outputs: Bytes)
    ensures h + (nodes + outputs) == h + nodes + outputs
  {
  }

  // ---------------------------------------------------------------------------------------
  // What malformed bytes are rejected with
  // ---------------------------------------------------------------------------------------

  /** A header is refused for the first of its letters, its version and the manifest's version that is wrong. */
  lemma WrongHeader(data: Bytes)
    requires |data| >= 20
    ensures data[..8] != [76, 76, 77, 79, 80, 84, 70, 88] ==> DecodeManifest(data) == Err(BadMagic)
    ensures data[..8] == [76, 76, 77, 79, 80, 84, 70, 88] && data[8..10] != [2, 0] ==> DecodeManifest(data) == Err(BadVersion)
    ensures data[..8] == [76, 76, 77, 79, 80, 84, 70, 88] && data[8..10] == [2, 0] && data[10..12] != [2, 0] ==>
              DecodeManifest(data) == Err(BadManifestVersion)
  {
    TwoBytes(data, 8);
    TwoBytes(data, 10);
    hide FromLittle, ReadNodes, ReadTexts;
    assert data[..20][..8] == data[..8] && data[..20][8..10] == data[8..10] && data[..20][10..12] == data[10..12];
  }

  lemma TwoBytes(data: Bytes, i: nat)
    requires i + 2 <= |data|
    ensures FromLittle(data[i..i + 2]) == 2 <==> data[i..i + 2] == [2, 0]
  {
    var pair := data[i..i + 2];
    assert pair[1..] == [pair[1]] && pair[1..][1..] == [];
    assert FromLittle([pair[1]]) == pair[1];
    assert FromLittle([]) == 0;
  }

  lemma OneByte(b: Bytes)
    requires b != []
    ensures ReadLittle(b, 1) == Ok((b[0], b[1..]))
  {
    assert b[..1] == [b[0]] && [b[0]][1..] == [];
    assert FromLittle([b[0]]) == b[0];
  }

  /** The tags that no table has, and the truth values that are neither 0 nor 1. */
  lemma WrongTags(b: Bytes)
    requires b != []
    ensures b[0] >= 12 ==> ReadArgument(b, 0) == Err(UnknownArgumentTag)
    ensures b[0] == 3 && |b| > 1 && b[1] >= 2 ==> ReadArgument(b, 0) == Err(InvalidBool)
    ensures b[0] >= 3 ==> ReadBinding(b) == Err(UnknownBindingTag)
    ensures b[0] >= 2 ==> ReadShape(b) == Err(UnknownShapeTag)
    ensures ReadArgument(b, 65) == Err(TooDeep)
  {
    OneByte(b);
    if |b| > 1 {
      OneByte(b[1..]);
    }
    hide ReadLittle, ReadNested, ReadText, ReadDimensions;
  }

  /** A node whose dtype is not in the table, whatever its name, op and target are. */
  lemma WrongDtype(name: Text, op: Text, target: Text, tag: Byte, rest: Bytes)
    requires TextFits(name) && TextFits(op) && TextFits(target)
    ensures var b := EncodeText(name) + (EncodeText(op) + (EncodeText(target) + ([tag] + rest)));
            tag >= 18 ==> ReadHead(b) == Err(UnknownDtypeTag)
  {
    var d := [tag] + rest;
    hide TextFits, EncodeText, ReadText, ReadLittle;
    TextThen(target, d);
    TextThen(op, EncodeText(target) + d);
    TextThen(name, EncodeText(op) + (EncodeText(target) + d));
    OneByte(d);
  }

  lemma TextThen(s: Text, rest: Bytes)
    requires TextFits(s)
    ensures ReadText(EncodeText(s) + rest) == Ok((s, rest))
  {
    var b := EncodeText(s) + rest;
    assert EncodeText(s) <= b && b[|EncodeText(s)|..] == rest;
    hide TextFits, EncodeText, ReadText;
    TextCut(s, b);
  }
}
