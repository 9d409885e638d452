/**
 The binary FX graph transport (python/llmopt_backend/fx_graph.py): what a manifest is, the
 bytes it is written as, and how those bytes are read back.
 */
module FxGraph {
  import opened Bytes
  import opened Results
  import opened Utf8

  /** Finite IEEE doubles, as the 64-bit patterns they are stored as. */
  type Double = u: nat | u < U64_LIMIT

  predicate IsFinite(d: Double) {
    d / 0x10_0000_0000_0000 % 0x800 != 0x7FF
  }

  datatype Argument =
    | NodeRef(name: Text)
    | Null
    | Ellipsis
    | Bool(flag: bool)
    | Int(number: int)
    | Float(bits: Double)
    | Str(text: Text)
    | Symbol(symbol: Text)
    | List(items: seq<Argument>)
    | Tuple(elements: seq<Argument>)
    | Mapping(fields: seq<Field>)
    | Slice(start: Argument, stop: Argument, step: Argument)

  datatype Field = Field(name: Text, value: Argument)

  datatype Binding = Computed | Runtime | TensorStore(key: Text)

  datatype Node = Node(
    name: Text,
    op: Text,
    target: Text,
    inputs: seq<Text>,
    shape: Option<seq<int>>,
    dtype: DtypeName,
    binding: Binding,
    args: seq<Argument>,
    kwargs: seq<Field>)

  datatype Manifest = Manifest(version: int, nodes: seq<Node>, outputs: seq<Text>)

  datatype Error =
    | Truncated
    | TrailingBytes
    | InvalidUtf8
    | TooDeep
    | InvalidBool
    | NonFinite
    | UnknownArgumentTag
    | UnknownDtypeTag
    | UnknownBindingTag
    | UnknownShapeTag
    | BadMagic
    | BadVersion
    | BadManifestVersion
    | Unencodable

  const MAX_DEPTH := 64
  const VERSION := 2
  const MANIFEST_VERSION := 2
  const MAGIC: Bytes := [0x4C, 0x4C, 0x4D, 0x4F, 0x50, 0x54, 0x46, 0x58]

  /** The dtypes of the table, in the order of their tags, and every other name. */
  datatype Dtype =
    | Float32 | Float16 | BFloat16 | Int64 | Int32 | Int8 | Boolean | UInt8
    | Q8_0 | Q4_K | Q5_K | Q6_K | Q5_0 | Q4_0 | IQ4_XS
    | Tile32_Affine4 | Tile32_Affine8 | EXL3_4
    | Unsupported(name: string)

  /** A dtype name as a caller may give it, with or without the `torch.` prefix. */
  datatype DtypeName = DtypeName(torch: bool, dtype: Dtype)

  const DTYPE_COUNT := 18

  function DtypeTag(dtype: Dtype): (tag: nat)
    ensures tag <= DTYPE_COUNT && (tag == DTYPE_COUNT <==> dtype.Unsupported?)
  {
    match dtype
    case Float32 => 0 case Float16 => 1 case BFloat16 => 2 case Int64 => 3
    case Int32 => 4 case Int8 => 5 case Boolean => 6 case UInt8 => 7
    case Q8_0 => 8 case Q4_K => 9 case Q5_K => 10 case Q6_K => 11
    case Q5_0 => 12 case Q4_0 => 13 case IQ4_XS => 14
    case Tile32_Affine4 => 15 case Tile32_Affine8 => 16 case EXL3_4 => 17
    case Unsupported(_) => DTYPE_COUNT
  }

  function DtypeOfTag(tag: nat): (dtype: Dtype)
    requires tag < DTYPE_COUNT
    ensures DtypeTag(dtype) == tag
  {
    match tag
    case 0 => Float32 case 1 => Float16 case 2 => BFloat16 case 3 => Int64
    case 4 => Int32 case 5 => Int8 case 6 => Boolean case 7 => UInt8
    case 8 => Q8_0 case 9 => Q4_K case 10 => Q5_K case 11 => Q6_K
    case 12 => Q5_0 case 13 => Q4_0 case 14 => IQ4_XS
    case 15 => Tile32_Affine4 case 16 => Tile32_Affine8 case _ => EXL3_4
  }

  // ---------------------------------------------------------------------------------------
  // What the writer accepts
  // ---------------------------------------------------------------------------------------

  predicate TextFits(s: Text) {
    Encodable(s) && |Encode(s)| < U32_LIMIT
  }

  predicate TextsFit(texts: seq<Text>) {
    forall i :: 0 <= i < |texts| ==> TextFits(texts[i])
  }

  predicate ArgumentFits(a: Argument, depth: nat)
    decreases a, 1
  {
    depth <= MAX_DEPTH
    && match a
       case NodeRef(name) => TextFits(name)
       case Null => true
       case Ellipsis => true
       case Bool(_) => true
       case Int(number) => -I64_LIMIT <= number < I64_LIMIT
       case Float(bits) => IsFinite(bits)
       case Str(text) => TextFits(text)
       case Symbol(symbol) => TextFits(symbol)
       case List(items) => |items| < U32_LIMIT && ArgumentsFit(items, depth + 1)
       case Tuple(elements) => |elements| < U32_LIMIT && ArgumentsFit(elements, depth + 1)
       case Mapping(fields) => |fields| < U32_LIMIT && FieldsFit(fields, depth + 1)
       case Slice(start, stop, step) =>
         ArgumentFits(start, depth + 1) && ArgumentFits(stop, depth + 1) && ArgumentFits(step, depth + 1)
  }

  predicate ArgumentsFit(items: seq<Argument>, depth: nat)
    decreases items, 0
  {
    items != [] ==> ArgumentFits(items[0], depth) && ArgumentsFit(items[1..], depth)
  }

  predicate FieldsFit(fields: seq<Field>, depth: nat)
    decreases fields, 0
  {
    fields != [] ==>
      TextFits(fields[0].name) && ArgumentFits(fields[0].value, depth) && FieldsFit(fields[1..], depth)
  }

  predicate DimensionsFit(dims: seq<int>) {
    forall i :: 0 <= i < |dims| ==> 0 <= dims[i] < U64_LIMIT
  }

  predicate NodeFits(n: Node) {
    && TextFits(n.name) && TextFits(n.op) && TextFits(n.target)
    && !n.dtype.dtype.Unsupported?
    && (n.binding.TensorStore? ==> TextFits(n.binding.key))
    && (n.shape.Some? ==> |n.shape.value| < U16_LIMIT && DimensionsFit(n.shape.value))
    && |n.inputs| < U32_LIMIT && TextsFit(n.inputs)
    && |n.args| < U32_LIMIT && ArgumentsFit(n.args, 0)
    && |n.kwargs| < U32_LIMIT && FieldsFit(n.kwargs, 0)
  }

  predicate ManifestFits(m: Manifest) {
    && m.version == MANIFEST_VERSION
    && |m.nodes| < U32_LIMIT && (forall i :: 0 <= i < |m.nodes| ==> NodeFits(m.nodes[i]))
    && |m.outputs| < U32_LIMIT && TextsFit(m.outputs)
  }

  // ---------------------------------------------------------------------------------------
  // The bytes
  // ---------------------------------------------------------------------------------------

  function EncodeText(s: Text): Bytes {
    Little(4, |Encode(s)|) + Encode(s)
  }

  function EncodeTextList(texts: seq<Text>): Bytes {
    Little(4, |texts|) + EncodeTexts(texts)
  }

  function EncodeTexts(texts: seq<Text>): Bytes {
    if texts == [] then [] else EncodeText(texts[0]) + EncodeTexts(texts[1..])
  }

  /** The two's-complement pattern, taken modulo 2^64 so that the function is total. */
  function EncodeInt(i: int): Bytes {
    Little(8, i % U64_LIMIT)
  }

  function ArgumentTag(a: Argument): Byte {
    match a
    case NodeRef(_) => 0
    case Null => 1
    case Ellipsis => 2
    case Bool(_) => 3
    case Int(_) => 4
    case Float(_) => 5
    case Str(_) => 6
    case Symbol(_) => 7
    case List(_) => 8
    case Tuple(_) => 9
    case Mapping(_) => 10
    case Slice(_, _, _) => 11
  }

  function EncodeArgument(a: Argument): (b: Bytes)
    ensures b != []
    decreases a, 3
  {
    [ArgumentTag(a)] + if ArgumentTag(a) < 8 then EncodeScalar(a) else EncodeNested(a)
  }

  /** What follows the tag of an argument that holds no other argument. */
  function EncodeScalar(a: Argument): Bytes
    requires ArgumentTag(a) < 8
  {
    match a
    case NodeRef(name) => EncodeText(name)
    case Null => []
    case Ellipsis => []
    case Bool(flag) => [if flag then 1 else 0]
    case Int(number) => EncodeInt(number)
    case Float(bits) => Little(8, bits)
    case Str(text) => EncodeText(text)
    case Symbol(symbol) => EncodeText(symbol)
  }

  function EncodeNested(a: Argument): Bytes
    requires ArgumentTag(a) >= 8
    decreases a, 2
  {
    match a
    case List(items) => EncodeArgumentList(items)
    case Tuple(elements) => EncodeArgumentList(elements)
    case Mapping(fields) => EncodeFieldList(fields)
    case Slice(start, stop, step) => EncodeArgument(start) + (EncodeArgument(stop) + EncodeArgument(step))
  }

  /** A counted list, as both list arguments and the positional arguments of a node are written. */
  function EncodeArgumentList(items: seq<Argument>): Bytes
    decreases items, 2
  {
    Little(4, |items|) + EncodeArguments(items)
  }

  function EncodeFieldList(fields: seq<Field>): Bytes
    decreases fields, 2
  {
    Little(4, |fields|) + EncodeFields(fields)
  }

  function EncodeArguments(items: seq<Argument>): Bytes
    decreases items, 0
  {
    if items == [] then [] else EncodeArgument(items[0]) + EncodeArguments(items[1..])
  }

  function EncodeFields(fields: seq<Field>): Bytes
    decreases fields, 0
  {
    if fields == [] then []
    else EncodeText(fields[0].name) + (EncodeArgument(fields[0].value) + EncodeFields(fields[1..]))
  }

  function EncodeBinding(binding: Binding): Bytes {
    match binding
    case Computed => [0]
    case Runtime => [1]
    case TensorStore(key) => [2] + EncodeText(key)
  }

  function EncodeDimensions(dims: seq<int>): Bytes {
    if dims == [] then [] else EncodeInt(dims[0]) + EncodeDimensions(dims[1..])
  }

  function EncodeShape(shape: Option<seq<int>>): Bytes {
    match shape
    case None => [0]
    case Some(dims) => [1] + (Little(2, |dims|) + EncodeDimensions(dims))
  }

  /** The name, op, target and dtype of a node. */
  function EncodeHead(n: Node): Bytes {
    EncodeText(n.name) + (EncodeText(n.op) + (EncodeText(n.target) + Little(1, DtypeTag(n.dtype.dtype))))
  }

  function EncodeBody(n: Node): Bytes {
    EncodeBinding(n.binding) + (EncodeShape(n.shape) + (
      EncodeTextList(n.inputs) + (EncodeArgumentList(n.args) + EncodeFieldList(n.kwargs))))
  }

  function EncodeNode(n: Node): Bytes {
    EncodeHead(n) + EncodeBody(n)
  }

  function EncodeNodes(nodes: seq<Node>): Bytes {
    if nodes == [] then [] else EncodeNode(nodes[0]) + EncodeNodes(nodes[1..])
  }

  function EncodeHeader(nodeCount: nat, outputCount: nat): (b: Bytes)
    ensures |b| == 20
  {
    MAGIC + Little(2, VERSION) + Little(2, MANIFEST_VERSION) + Little(4, nodeCount) + Little(4, outputCount)
  }

  function EncodeManifest(m: Manifest): Bytes {
    EncodeHeader(|m.nodes|, |m.outputs|) + (EncodeNodes(m.nodes) + EncodeTexts(m.outputs))
  }

  // ---------------------------------------------------------------------------------------
  // Reading: every reader returns a value and the bytes after it
  // ---------------------------------------------------------------------------------------

  type Parsed<T> = Result<(T, Bytes), Error>

  function ReadRaw(b: Bytes, size: nat): Parsed<Bytes> {
    if size <= |b| then Ok((b[..size], b[size..])) else Err(Truncated)
  }

  function ReadLittle(b: Bytes, width: nat): Parsed<nat> {
    var (raw, rest) :- ReadRaw(b, width);
    Ok((FromLittle(raw), rest))
  }

  function ReadText(b: Bytes): Parsed<Text> {
    var (size, b) :- ReadLittle(b, 4);
    var (raw, rest) :- ReadRaw(b, size);
    match Decode(raw)
    case Some(s) => Ok((s, rest))
    case None => Err(InvalidUtf8)
  }

  function ReadTextList(b: Bytes): Parsed<seq<Text>> {
    var (count, b) :- ReadLittle(b, 4);
    ReadTexts(b, count)
  }

  function ReadTexts(b: Bytes, count: nat): Parsed<seq<Text>>
    decreases count
  {
    if count == 0 then Ok(([], b))
    else
      var (s, b) :- ReadText(b);
      var (tail, rest) :- ReadTexts(b, count - 1);
      Ok(([s] + tail, rest))
  }

  function ReadArgument(b: Bytes, depth: nat): Parsed<Argument>
    decreases MAX_DEPTH + 1 - depth, 0, 0
  {
    if depth > MAX_DEPTH then Err(TooDeep)
    else
      var (tag, b) :- ReadLittle(b, 1);
      if tag < 8 then ReadScalar(tag, b)
      else if tag < 12 then ReadNested(tag, b, depth + 1)
      else Err(UnknownArgumentTag)
  }

  function ReadScalar(tag: nat, b: Bytes): Parsed<Argument>
    requires tag < 8
  {
    if tag == 0 then
      var (s, rest) :- ReadText(b); Ok((NodeRef(s), rest))
    else if tag == 1 then Ok((Null, b))
    else if tag == 2 then Ok((Ellipsis, b))
    else if tag == 3 then
      var (v, rest) :- ReadLittle(b, 1);
      if v == 0 || v == 1 then Ok((Bool(v == 1), rest)) else Err(InvalidBool)
    else if tag == 4 then
      var (raw, rest) :- ReadRaw(b, 8);
      LittleBound(raw);
      Ok((Int(ToSigned(FromLittle(raw))), rest))
    else if tag == 5 then
      var (raw, rest) :- ReadRaw(b, 8);
      LittleBound(raw);
      var bits: Double := FromLittle(raw);
      if IsFinite(bits) then Ok((Float(bits), rest)) else Err(NonFinite)
    else if tag == 6 then
      var (s, rest) :- ReadText(b); Ok((Str(s), rest))
    else
      var (s, rest) :- ReadText(b); Ok((Symbol(s), rest))
  }

  /** Reads the children, one level deeper than the argument that holds them. */
  function ReadNested(tag: nat, b: Bytes, depth: nat): Parsed<Argument>
    requires 8 <= tag < 12 && depth <= MAX_DEPTH + 1
    decreases MAX_DEPTH + 1 - depth, 3, 0
  {
    if tag == 8 then
      var (items, rest) :- ReadArgumentList(b, depth); Ok((List(items), rest))
    else if tag == 9 then
      var (items, rest) :- ReadArgumentList(b, depth); Ok((Tuple(items), rest))
    else if tag == 10 then
      var (fields, rest) :- ReadFieldList(b, depth); Ok((Mapping(fields), rest))
    else ReadSlice(b, depth)
  }

  function ReadSlice(b: Bytes, depth: nat): Parsed<Argument>
    requires depth <= MAX_DEPTH + 1
    decreases MAX_DEPTH + 1 - depth, 2, 0
  {
    var (start, b) :- ReadArgument(b, depth);
    var (stop, b) :- ReadArgument(b, depth);
    var (step, rest) :- ReadArgument(b, depth);
    Ok((Slice(start, stop, step), rest))
  }

  function ReadArgumentList(b: Bytes, depth: nat): Parsed<seq<Argument>>
    requires depth <= MAX_DEPTH + 1
    decreases MAX_DEPTH + 1 - depth, 2, 0
  {
    var (count, b) :- ReadLittle(b, 4);
    ReadArguments(b, count, depth)
  }

  function ReadFieldList(b: Bytes, depth: nat): Parsed<seq<Field>>
    requires depth <= MAX_DEPTH + 1
    decreases MAX_DEPTH + 1 - depth, 2, 0
  {
    var (count, b) :- ReadLittle(b, 4);
    ReadFields(b, count, depth)
  }

  function ReadArguments(b: Bytes, count: nat, depth: nat): Parsed<seq<Argument>>
    requires depth <= MAX_DEPTH + 1
    decreases MAX_DEPTH + 1 - depth, 1, count
  {
    if count == 0 then Ok(([], b))
    else
      var (a, b) :- ReadArgument(b, depth);
      var (tail, rest) :- ReadArguments(b, count - 1, depth);
      Ok(([a] + tail, rest))
  }

  function ReadFields(b: Bytes, count: nat, depth: nat): Parsed<seq<Field>>
    requires depth <= MAX_DEPTH + 1
    decreases MAX_DEPTH + 1 - depth, 1, count
  {
    if count == 0 then Ok(([], b))
    else
      var (name, b) :- ReadText(b);
      var (value, b) :- ReadArgument(b, depth);
      var (tail, rest) :- ReadFields(b, count - 1, depth);
      Ok(([Field(name, value)] + tail, rest))
  }

  lemma LittleBound(raw: Bytes)
    requires |raw| == 8
    ensures FromLittle(raw) < U64_LIMIT
  {
    Limits();
    LittleOfFromLittle(raw);
  }

  function ReadBinding(b: Bytes): Parsed<Binding> {
    var (tag, b) :- ReadLittle(b, 1);
    if tag == 0 then Ok((Computed, b))
    else if tag == 1 then Ok((Runtime, b))
    else if tag == 2 then
      var (key, rest) :- ReadText(b); Ok((TensorStore(key), rest))
    else Err(UnknownBindingTag)
  }

  function ReadDimensions(b: Bytes, count: nat): Parsed<seq<int>>
    decreases count
  {
    if count == 0 then Ok(([], b))
    else
      var (d, b) :- ReadLittle(b, 8);
      var (tail, rest) :- ReadDimensions(b, count - 1);
      Ok(([d] + tail, rest))
  }

  function ReadShape(b: Bytes): Parsed<Option<seq<int>>> {
    var (tag, b) :- ReadLittle(b, 1);
    if tag == 0 then Ok((None, b))
    else if tag == 1 then
      var (rank, b) :- ReadLittle(b, 2);
      var (dims, rest) :- ReadDimensions(b, rank);
      Ok((Some(dims), rest))
    else Err(UnknownShapeTag)
  }

  datatype Head = Head(name: Text, op: Text, target: Text, dtype: DtypeName)

  function ReadHead(b: Bytes): Parsed<Head> {
    var (name, b) :- ReadText(b);
    var (op, b) :- ReadText(b);
    var (target, b) :- ReadText(b);
    var (tag, rest) :- ReadLittle(b, 1);
    if tag < DTYPE_COUNT then Ok((Head(name, op, target, DtypeName(false, DtypeOfTag(tag))), rest))
    else Err(UnknownDtypeTag)
  }

  function ReadBody(b: Bytes, head: Head): Parsed<Node> {
    var (binding, b) :- ReadBinding(b);
    var (shape, b) :- ReadShape(b);
    var (inputs, b) :- ReadTextList(b);
    var (args, b) :- ReadArgumentList(b, 0);
    var (kwargs, rest) :- ReadFieldList(b, 0);
    Ok((Node(head.name, head.op, head.target, inputs, shape, head.dtype, binding, args, kwargs), rest))
  }

  function ReadNode(b: Bytes): Parsed<Node> {
    var (head, b) :- ReadHead(b);
    ReadBody(b, head)
  }

  function ReadNodes(b: Bytes, count: nat): Parsed<seq<Node>>
    decreases count
  {
    if count == 0 then Ok(([], b))
    else
      var (n, b) :- ReadNode(b);
      var (tail, rest) :- ReadNodes(b, count - 1);
      Ok(([n] + tail, rest))
  }

  /** The two counts of a header, after its magic and versions have been checked in that order. */
  function CheckHeader(raw: Bytes): Result<(nat, nat), Error>
    requires |raw| == 20
  {
    if raw[..8] != MAGIC then Err(BadMagic)
    else if FromLittle(raw[8..10]) != VERSION then Err(BadVersion)
    else if FromLittle(raw[10..12]) != MANIFEST_VERSION then Err(BadManifestVersion)
    else Ok((FromLittle(raw[12..16]), FromLittle(raw[16..20])))
  }

  function DecodeManifest(data: Bytes): Result<Manifest, Error> {
    var (raw, b) :- ReadRaw(data, 20);
    var (nodeCount, outputCount) :- CheckHeader(raw);
    var (nodes, b) :- ReadNodes(b, nodeCount);
    var (outputs, rest) :- ReadTexts(b, outputCount);
    if rest != [] then Err(TrailingBytes)
    else Ok(Manifest(MANIFEST_VERSION, nodes, outputs))
  }
}
