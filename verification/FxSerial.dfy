/**
 The dictionaries and lists a graph is serialized as, the recursive string replacement that renames
 values in them, and the reference lists of nodes.
 */
module FxSerial {
  import opened Results
  import opened Utf8
  import opened FxGraph
  import opened GraphNames

  // ---------------------------------------------------------------------------------------
  // Plain data
  // ---------------------------------------------------------------------------------------

  datatype Data =
    | Nothing
    | Flag(flag: bool)
    | Number(number: int)
    | Real(bits: Double)
    | String(text: Text)
    | Sequence(items: seq<Data>)
    | Dict(members: seq<Member>)

  datatype Member = Member(key: string, value: Data)

  /** `replace_names`: every string is looked up, dictionary keys are left alone. */
  function ReplaceNames(value: Data, names: map<Text, Text>): Data
    decreases value, 1
  {
    match value
    case String(text) => String(Get(names, text))
    case Sequence(items) => Sequence(ReplaceAll(items, names))
    case Dict(members) => Dict(ReplaceMembers(members, names))
    case _ => value
  }

  function ReplaceAll(items: seq<Data>, names: map<Text, Text>): seq<Data>
    decreases items, 0
  {
    if items == [] then [] else [ReplaceNames(items[0], names)] + ReplaceAll(items[1..], names)
  }

  function ReplaceMembers(members: seq<Member>, names: map<Text, Text>): seq<Member>
    decreases members, 0
  {
    if members == [] then []
    else [Member(members[0].key, ReplaceNames(members[0].value, names))] + ReplaceMembers(members[1..], names)
  }

  // ---------------------------------------------------------------------------------------
  // Manifests as data
  // ---------------------------------------------------------------------------------------

  function Ascii(s: string): Text {
    seq(|s|, i requires 0 <= i < |s| => s[i] as int)
  }

  function Word(s: string): Data {
    String(Ascii(s))
  }

  function Texts(texts: seq<Text>): seq<Data> {
    if texts == [] then [] else [String(texts[0])] + Texts(texts[1..])
  }

  function Numbers(numbers: seq<int>): seq<Data> {
    if numbers == [] then [] else [Number(numbers[0])] + Numbers(numbers[1..])
  }

  /** `_argument`. */
  function ArgumentData(a: Argument): Data
    decreases a, 1
  {
    match a
    case NodeRef(name) => Dict([Member("kind", Word("node")), Member("name", String(name))])
    case Null => Dict([Member("kind", Word("null"))])
    case Ellipsis => Dict([Member("kind", Word("ellipsis"))])
    case Bool(flag) => Dict([Member("kind", Word("bool")), Member("value", Flag(flag))])
    case Int(number) => Dict([Member("kind", Word("int")), Member("value", Number(number))])
    case Float(bits) => Dict([Member("kind", Word("float")), Member("value", Real(bits))])
    case Str(text) => Dict([Member("kind", Word("string")), Member("value", String(text))])
    case Symbol(symbol) => Dict([Member("kind", Word("symbol")), Member("value", String(symbol))])
    case List(items) => Dict([Member("kind", Word("list")), Member("items", Sequence(ArgumentsData(items)))])
    case Tuple(elements) => Dict([Member("kind", Word("tuple")), Member("items", Sequence(ArgumentsData(elements)))])
    case Mapping(fields) => Dict([Member("kind", Word("mapping")), Member("items", Sequence(FieldsData(fields)))])
    case Slice(start, stop, step) =>
      Dict([Member("kind", Word("slice")), Member("start", ArgumentData(start)),
            Member("stop", ArgumentData(stop)), Member("step", ArgumentData(step))])
  }

  function ArgumentsData(items: seq<Argument>): seq<Data>
    decreases items, 0
  {
    if items == [] then [] else [ArgumentData(items[0])] + ArgumentsData(items[1..])
  }

  function FieldsData(fields: seq<Field>): seq<Data>
    decreases fields, 0
  {
    if fields == [] then []
    else [FieldData(fields[0])] + FieldsData(fields[1..])
  }

  function FieldData(f: Field): Data
    decreases f, 2
  {
    Dict([Member("name", String(f.name)), Member("value", ArgumentData(f.value))])
  }

  function BindingData(b: Binding): Data {
    match b
    case Computed => Dict([Member("kind", Word("computed"))])
    case Runtime => Dict([Member("kind", Word("runtime"))])
    case TensorStore(key) => Dict([Member("kind", Word("tensor-store")), Member("key", String(key))])
  }

  function ShapeData(shape: Option<seq<int>>): Data {
    match shape
    case None => Nothing
    case Some(dims) => Sequence(Numbers(dims))
  }

  function DtypeText(dtype: Dtype): string {
    match dtype
    case Float32 => "float32" case Float16 => "float16" case BFloat16 => "bfloat16"
    case Int64 => "int64" case Int32 => "int32" case Int8 => "int8" case Boolean => "bool" case UInt8 => "uint8"
    case Q8_0 => "Q8_0" case Q4_K => "Q4_K" case Q5_K => "Q5_K" case Q6_K => "Q6_K"
    case Q5_0 => "Q5_0" case Q4_0 => "Q4_0" case IQ4_XS => "IQ4_XS"
    case Tile32_Affine4 => "Tile32_Affine4" case Tile32_Affine8 => "Tile32_Affine8" case EXL3_4 => "EXL3_4"
    case Unsupported(name) => name
  }

  function DtypeNameText(d: DtypeName): Text {
    Ascii((if d.torch then "torch." else "") + DtypeText(d.dtype))
  }

  function CallData(args: seq<Argument>, kwargs: seq<Field>): Data {
    Dict([Member("args", Sequence(ArgumentsData(args))), Member("kwargs", Sequence(FieldsData(kwargs)))])
  }

  function NodeData(n: Node): Data {
    Dict([Member("name", String(n.name)), Member("op", String(n.op)), Member("target", String(n.target)),
          Member("inputs", Sequence(Texts(n.inputs))), Member("shape", ShapeData(n.shape)),
          Member("dtype", String(DtypeNameText(n.dtype))), Member("binding", BindingData(n.binding)),
          Member("arguments", CallData(n.args, n.kwargs))])
  }

  function NodesData(nodes: seq<Node>): seq<Data> {
    if nodes == [] then [] else [NodeData(nodes[0])] + NodesData(nodes[1..])
  }

  function ManifestData(m: Manifest): Data {
    Dict([Member("version", Number(m.version)), Member("nodes", Sequence(NodesData(m.nodes))),
          Member("outputs", Sequence(Texts(m.outputs)))])
  }

  // ---------------------------------------------------------------------------------------
  // When replacing strings renames the manifest
  // ---------------------------------------------------------------------------------------

  /** A word of the format that the replacement leaves alone. */
  predicate Kept(names: map<Text, Text>, w: string) {
    Get(names, Ascii(w)) == Ascii(w)
  }

  function KindOf(a: Argument): string {
    match a
    case NodeRef(_) => "node"
    case Null => "null"
    case Ellipsis => "ellipsis"
    case Bool(_) => "bool"
    case Int(_) => "int"
    case Float(_) => "float"
    case Str(_) => "string"
    case Symbol(_) => "symbol"
    case List(_) => "list"
    case Tuple(_) => "tuple"
    case Mapping(_) => "mapping"
    case Slice(_, _, _) => "slice"
  }

  /** The replacement leaves every kind word that occurs in the argument alone. */
  predicate KindsKept(a: Argument, names: map<Text, Text>)
    decreases a, 1
  {
    Kept(names, KindOf(a))
    && match a
       case List(items) => AllKindsKept(items, names)
       case Tuple(elements) => AllKindsKept(elements, names)
       case Mapping(fields) => FieldKindsKept(fields, names)
       case Slice(start, stop, step) => KindsKept(start, names) && KindsKept(stop, names) && KindsKept(step, names)
       case _ => true
  }

  predicate AllKindsKept(items: seq<Argument>, names: map<Text, Text>)
    decreases items, 0
  {
    items != [] ==> KindsKept(items[0], names) && AllKindsKept(items[1..], names)
  }

  predicate FieldKindsKept(fields: seq<Field>, names: map<Text, Text>)
    decreases fields, 0
  {
    fields != [] ==> KindsKept(fields[0].value, names) && FieldKindsKept(fields[1..], names)
  }

  function KindOfBinding(b: Binding): string {
    match b
    case Computed => "computed"
    case Runtime => "runtime"
    case TensorStore(_) => "tensor-store"
  }

  predicate WordsKept(n: Node, names: map<Text, Text>) {
    && Get(names, DtypeNameText(n.dtype)) == DtypeNameText(n.dtype) && Kept(names, KindOfBinding(n.binding))
    && AllKindsKept(n.args, names) && FieldKindsKept(n.kwargs, names)
  }

  predicate AllWordsKept(nodes: seq<Node>, names: map<Text, Text>) {
    nodes != [] ==> WordsKept(nodes[0], names) && AllWordsKept(nodes[1..], names)
  }

  // Lists of members and items, one fact each.

  function Replaced(m: Member, names: map<Text, Text>): Member {
    Member(m.key, ReplaceNames(m.value, names))
  }

  lemma MoreMembers(m: Member, rest: seq<Member>, names: map<Text, Text>)
    ensures ReplaceMembers([m] + rest, names) == [Replaced(m, names)] + ReplaceMembers(rest, names)
  {
    assert ([m] + rest)[1..] == rest;
  }

  lemma OneMember(m: Member, names: map<Text, Text>)
    ensures ReplaceMembers([m], names) == [Replaced(m, names)]
  {
    assert [m] + [] == [m];
    MoreMembers(m, [], names);
  }

  lemma TwoMembers(a: Member, b: Member, names: map<Text, Text>)
    ensures ReplaceMembers([a, b], names) == [Replaced(a, names), Replaced(b, names)]
  {
    hide ReplaceMembers;
    assert [a, b] == [a] + [b];
    MoreMembers(a, [b], names);
    OneMember(b, names);
  }

  lemma ThreeMembers(a: Member, b: Member, c: Member, names: map<Text, Text>)
    ensures ReplaceMembers([a, b, c], names) == [Replaced(a, names), Replaced(b, names), Replaced(c, names)]
  {
    hide ReplaceMembers;
    assert [a, b, c] == [a] + [b, c];
    MoreMembers(a, [b, c], names);
    TwoMembers(b, c, names);
  }

  lemma FourMembers(a: Member, b: Member, c: Member, d: Member, names: map<Text, Text>)
    ensures ReplaceMembers([a, b, c, d], names)
         == [Replaced(a, names), Replaced(b, names), Replaced(c, names), Replaced(d, names)]
  {
    hide ReplaceMembers;
    assert [a, b, c, d] == [a] + [b, c, d];
    MoreMembers(a, [b, c, d], names);
    ThreeMembers(b, c, d, names);
  }

  lemma {:induction false} MembersConcat(a: seq<Member>, b: seq<Member>, names: map<Text, Text>)
    ensures ReplaceMembers(a + b, names) == ReplaceMembers(a, names) + ReplaceMembers(b, names)
  {
    hide ReplaceNames;
    if a == [] {
      assert a + b == b;
    } else {
      MembersConcat(a[1..], b, names);
      assert (a + b)[1..] == a[1..] + b;
      Reassociated([Replaced(a[0], names)], ReplaceMembers(a[1..], names), ReplaceMembers(b, names));
    }
  }

  lemma Reassociated<T>(a: seq<T>, b: seq<T>, c: seq<T>)
    ensures a + (b + c) == (a + b) + c
  {
  }

  lemma SameHeads<T>(a: T, b: T, s: seq<T>, t: seq<T>)
    ensures [a] + s == [b] + t <==> a == b && s == t
  {
    assert ([a] + s)[0] == a && ([b] + t)[0] == b;
    assert ([a] + s)[1..] == s && ([b] + t)[1..] == t;
  }

  lemma SameStarts<T>(a: seq<T>, s: seq<T>, t: seq<T>)
    ensures a + s == a + t <==> s == t
  {
    assert (a + s)[|a|..] == s && (a + t)[|a|..] == t;
  }

  lemma {:induction false} TextsRenamed(texts: seq<Text>, names: map<Text, Text>)
    ensures ReplaceAll(Texts(texts), names) == Texts(GetAll(names, texts))
  {
    if texts != [] {
      TextsRenamed(texts[1..], names);
      assert GetAll(names, texts)[1..] == GetAll(names, texts[1..]);
    }
  }

  lemma {:induction false} NumbersKept(numbers: seq<int>, names: map<Text, Text>)
    ensures ReplaceAll(Numbers(numbers), names) == Numbers(numbers)
  {
    if numbers != [] {
      NumbersKept(numbers[1..], names);
    }
  }

  // ---------------------------------------------------------------------------------------
  // Arguments
  // ---------------------------------------------------------------------------------------

  function Tag(w: string): Member {
    Member("kind", Word(w))
  }

  lemma ReplacedTag(w: string, names: map<Text, Text>)
    ensures Replaced(Tag(w), names) == Tag(w) <==> Kept(names, w)
  {
  }

  lemma LoneTag(w: string, names: map<Text, Text>)
    ensures ReplaceNames(Dict([Tag(w)]), names) == Dict([Tag(w)]) <==> Kept(names, w)
  {
    OneMember(Tag(w), names);
    ReplacedTag(w, names);
    hide ReplaceMembers, Replaced, Tag, Kept;
  }

  /** A tagged value is replaced by `value` under the same tag exactly when the tag is kept and its content becomes that. */
  lemma Tagged(w: string, m: Member, value: Data, names: map<Text, Text>)
    ensures ReplaceNames(Dict([Tag(w), m]), names) == Dict([Tag(w), Member(m.key, value)])
        <==> Kept(names, w) && ReplaceNames(m.value, names) == value
  {
    TwoMembers(Tag(w), m, names);
    ReplacedTag(w, names);
    hide ReplaceMembers, Tag, Kept;
    PairsEqual(Replaced(Tag(w), names), Replaced(m, names), Tag(w), Member(m.key, value));
  }

  lemma PairsEqual<T>(a: T, b: T, c: T, d: T)
    ensures [a, b] == [c, d] <==> a == c && b == d
  {
    assert [a, b][0] == a && [a, b][1] == b && [c, d][0] == c && [c, d][1] == d;
  }

  lemma QuadsEqual<T>(a: T, b: T, c: T, d: T, a': T, b': T, c': T, d': T)
    ensures [a, b, c, d] == [a', b', c', d'] <==> a == a' && b == b' && c == c' && d == d'
  {
    assert [a, b, c, d][0] == a && [a, b, c, d][1] == b && [a, b, c, d][2] == c && [a, b, c, d][3] == d;
    assert [a', b', c', d'][0] == a' && [a', b', c', d'][1] == b' && [a', b', c', d'][2] == c' && [a', b', c', d'][3] == d';
  }

  predicate IsLeaf(a: Argument) {
    !a.List? && !a.Tuple? && !a.Mapping? && !a.Slice?
  }

  lemma LeafReplaced(a: Argument, names: map<Text, Text>)
    requires IsLeaf(a)
    ensures ReplaceNames(ArgumentData(a), names) == ArgumentData(RenameArgument(a, names)) <==> Kept(names, KindOf(a))
  {
    hide Ascii, Kept, ReplaceMembers;
    match a {
      case NodeRef(name) => Tagged("node", Member("name", String(name)), String(Get(names, name)), names);
      case Null => LoneTag("null", names);
      case Ellipsis => LoneTag("ellipsis", names);
      case Bool(flag) => Tagged("bool", Member("value", Flag(flag)), Flag(flag), names);
      case Int(number) => Tagged("int", Member("value", Number(number)), Number(number), names);
      case Float(bits) => Tagged("float", Member("value", Real(bits)), Real(bits), names);
      case Str(text) => Tagged("string", Member("value", String(text)), String(Get(names, text)), names);
      case Symbol(symbol) => Tagged("symbol", Member("value", String(symbol)), String(Get(names, symbol)), names);
    }
  }

  lemma {:induction false} ArgumentReplaced(a: Argument, names: map<Text, Text>)
    ensures ReplaceNames(ArgumentData(a), names) == ArgumentData(RenameArgument(a, names)) <==> KindsKept(a, names)
    decreases a, 1
  {
    if IsLeaf(a) {
      LeafReplaced(a, names);
      hide ArgumentData, RenameArgument, Kept, ReplaceNames, KindOf;
    } else {
      hide ArgumentData, RenameArgument, ReplaceNames, KindsKept;
      match a {
        case List(items) => ListReplaced(a, names);
        case Tuple(elements) => TupleReplaced(a, names);
        case Mapping(fields) => MappingReplaced(a, names);
        case Slice(start, stop, step) => SliceReplaced(a, names);
      }
    }
  }

  lemma {:induction false} ListReplaced(a: Argument, names: map<Text, Text>)
    requires a.List?
    ensures ReplaceNames(ArgumentData(a), names) == ArgumentData(RenameArgument(a, names)) <==> KindsKept(a, names)
    decreases a, 0
  {
    hide Ascii, Kept, ReplaceMembers;
    ArgumentsReplaced(a.items, names);
    Tagged("list", Member("items", Sequence(ArgumentsData(a.items))),
           Sequence(ArgumentsData(RenameArguments(a.items, names))), names);
  }

  lemma {:induction false} TupleReplaced(a: Argument, names: map<Text, Text>)
    requires a.Tuple?
    ensures ReplaceNames(ArgumentData(a), names) == ArgumentData(RenameArgument(a, names)) <==> KindsKept(a, names)
    decreases a, 0
  {
    hide Ascii, Kept, ReplaceMembers;
    ArgumentsReplaced(a.elements, names);
    Tagged("tuple", Member("items", Sequence(ArgumentsData(a.elements))),
           Sequence(ArgumentsData(RenameArguments(a.elements, names))), names);
  }

  lemma {:induction false} MappingReplaced(a: Argument, names: map<Text, Text>)
    requires a.Mapping?
    ensures ReplaceNames(ArgumentData(a), names) == ArgumentData(RenameArgument(a, names)) <==> KindsKept(a, names)
    decreases a, 0
  {
    hide Ascii, Kept, ReplaceMembers;
    FieldsReplaced(a.fields, names);
    Tagged("mapping", Member("items", Sequence(FieldsData(a.fields))),
           Sequence(FieldsData(RenameFields(a.fields, names))), names);
  }

  lemma TaggedSlice(x: Data, y: Data, z: Data, x': Data, y': Data, z': Data, names: map<Text, Text>)
    ensures ReplaceNames(Dict([Tag("slice"), Member("start", x), Member("stop", y), Member("step", z)]), names)
            == Dict([Tag("slice"), Member("start", x'), Member("stop", y'), Member("step", z')])
        <==> Kept(names, "slice") && ReplaceNames(x, names) == x' && ReplaceNames(y, names) == y' && ReplaceNames(z, names) == z'
  {
    var tag, a, b, c := Tag("slice"), Member("start", x), Member("stop", y), Member("step", z);
    FourMembers(tag, a, b, c, names);
    ReplacedTag("slice", names);
    hide ReplaceMembers, Kept, Tag;
    QuadsEqual(Replaced(tag, names), Replaced(a, names), Replaced(b, names), Replaced(c, names), tag,
               Member("start", x'), Member("stop", y'), Member("step", z'));
  }

  lemma {:induction false} SliceReplaced(a: Argument, names: map<Text, Text>)
    requires a.Slice?
    ensures ReplaceNames(ArgumentData(a), names) == ArgumentData(RenameArgument(a, names)) <==> KindsKept(a, names)
    decreases a, 0
  {
    ArgumentReplaced(a.start, names);
    ArgumentReplaced(a.stop, names);
    ArgumentReplaced(a.step, names);
    hide *;
    SliceKinds(a, names);
    SliceData(a);
    SliceData(RenameArgument(a, names));
    var x, y, z := ArgumentData(a.start), ArgumentData(a.stop), ArgumentData(a.step);
    TaggedSlice(x, y, z, ArgumentData(RenameArgument(a.start, names)), ArgumentData(RenameArgument(a.stop, names)),
                ArgumentData(RenameArgument(a.step, names)), names);
  }

  lemma SliceData(a: Argument)
    requires a.Slice?
    ensures ArgumentData(a) == Dict([Tag("slice"), Member("start", ArgumentData(a.start)), Member("stop", ArgumentData(a.stop)),
                                     Member("step", ArgumentData(a.step))])
  {
  }

  lemma SliceKinds(a: Argument, names: map<Text, Text>)
    requires a.Slice?
    ensures KindsKept(a, names)
       <==> Kept(names, "slice") && KindsKept(a.start, names) && KindsKept(a.stop, names) && KindsKept(a.step, names)
    ensures RenameArgument(a, names)
         == Slice(RenameArgument(a.start, names), RenameArgument(a.stop, names), RenameArgument(a.step, names))
  {
    hide Kept;
  }

  lemma {:induction false} ArgumentsReplaced(items: seq<Argument>, names: map<Text, Text>)
    ensures ReplaceAll(ArgumentsData(items), names) == ArgumentsData(RenameArguments(items, names)) <==> AllKindsKept(items, names)
    decreases items, 0
  {
    hide ReplaceNames, ArgumentData, RenameArgument, KindsKept;
    if items != [] {
      ArgumentReplaced(items[0], names);
      ArgumentsReplaced(items[1..], names);
      SameHeads(ReplaceNames(ArgumentData(items[0]), names), ArgumentData(RenameArgument(items[0], names)),
                ReplaceAll(ArgumentsData(items[1..]), names), ArgumentsData(RenameArguments(items[1..], names)));
    }
  }

  function RenameField(f: Field, names: map<Text, Text>): Field {
    Field(Get(names, f.name), RenameArgument(f.value, names))
  }

  lemma {:induction false} FieldReplaced(f: Field, names: map<Text, Text>)
    ensures ReplaceNames(FieldData(f), names) == FieldData(RenameField(f, names)) <==> KindsKept(f.value, names)
    decreases f, 2
  {
    ArgumentReplaced(f.value, names);
    var x, y := Member("name", String(f.name)), Member("value", ArgumentData(f.value));
    TwoMembers(x, y, names);
    hide ReplaceMembers, KindsKept, ArgumentData, RenameArgument;
    PairsEqual(Replaced(x, names), Replaced(y, names), Member("name", String(Get(names, f.name))),
               Member("value", ArgumentData(RenameArgument(f.value, names))));
  }

  lemma {:induction false} FieldsReplaced(fields: seq<Field>, names: map<Text, Text>)
    ensures ReplaceAll(FieldsData(fields), names) == FieldsData(RenameFields(fields, names)) <==> FieldKindsKept(fields, names)
    decreases fields, 0
  {
    hide ReplaceNames, FieldData, RenameField, KindsKept;
    if fields != [] {
      FieldReplaced(fields[0], names);
      FieldsReplaced(fields[1..], names);
      FieldsRenamed(fields, names);
      SameHeads(ReplaceNames(FieldData(fields[0]), names), FieldData(RenameField(fields[0], names)),
                ReplaceAll(FieldsData(fields[1..]), names), FieldsData(RenameFields(fields[1..], names)));
    }
  }

  lemma FieldsRenamed(fields: seq<Field>, names: map<Text, Text>)
    requires fields != []
    ensures var renamed := RenameFields(fields, names);
            renamed != [] && renamed[0] == RenameField(fields[0], names) && renamed[1..] == RenameFields(fields[1..], names)
  {
  }

  // ---------------------------------------------------------------------------------------
  // Nodes
  // ---------------------------------------------------------------------------------------

  lemma BindingReplaced(b: Binding, names: map<Text, Text>)
    ensures ReplaceNames(BindingData(b), names) == BindingData(RenameBinding(b, names)) <==> Kept(names, KindOfBinding(b))
  {
    hide Ascii, Kept, ReplaceMembers;
    match b {
      case Computed => LoneTag("computed", names);
      case Runtime => LoneTag("runtime", names);
      case TensorStore(key) => Tagged("tensor-store", Member("key", String(key)), String(Get(names, key)), names);
    }
  }

  lemma ShapeKept(shape: Option<seq<int>>, names: map<Text, Text>)
    ensures ReplaceNames(ShapeData(shape), names) == ShapeData(shape)
  {
    if shape.Some? {
      NumbersKept(shape.value, names);
    }
  }

  function HeadMembers(n: Node): seq<Member> {
    [Member("name", String(n.name)), Member("op", String(n.op)), Member("target", String(n.target)),
     Member("inputs", Sequence(Texts(n.inputs)))]
  }

  function TailMembers(n: Node): seq<Member> {
    [Member("shape", ShapeData(n.shape)), Member("dtype", String(DtypeNameText(n.dtype))),
     Member("binding", BindingData(n.binding)), Member("arguments", CallData(n.args, n.kwargs))]
  }

  lemma HeadReplaced(n: Node, names: map<Text, Text>)
    ensures ReplaceMembers(HeadMembers(n), names) == HeadMembers(RenameNode(n, names))
  {
    TextsRenamed(n.inputs, names);
    hide ReplaceMembers, Texts, GetAll;
    FourMembers(Member("name", String(n.name)), Member("op", String(n.op)), Member("target", String(n.target)),
                Member("inputs", Sequence(Texts(n.inputs))), names);
  }

  lemma CallReplaced(args: seq<Argument>, kwargs: seq<Field>, names: map<Text, Text>)
    ensures ReplaceNames(CallData(args, kwargs), names) == CallData(RenameArguments(args, names), RenameFields(kwargs, names))
        <==> AllKindsKept(args, names) && FieldKindsKept(kwargs, names)
  {
    ArgumentsReplaced(args, names);
    FieldsReplaced(kwargs, names);
    var x, y := Member("args", Sequence(ArgumentsData(args))), Member("kwargs", Sequence(FieldsData(kwargs)));
    TwoMembers(x, y, names);
    hide ReplaceMembers, ArgumentsData, FieldsData, ReplaceAll, RenameArguments, RenameFields, AllKindsKept, FieldKindsKept;
    PairsEqual(Replaced(x, names), Replaced(y, names), Member("args", Sequence(ArgumentsData(RenameArguments(args, names)))),
               Member("kwargs", Sequence(FieldsData(RenameFields(kwargs, names)))));
  }

  lemma TailReplaced(n: Node, names: map<Text, Text>)
    ensures ReplaceMembers(TailMembers(n), names) == TailMembers(RenameNode(n, names)) <==> WordsKept(n, names)
  {
    ShapeKept(n.shape, names);
    BindingReplaced(n.binding, names);
    CallReplaced(n.args, n.kwargs, names);
    hide CallData, BindingData, ShapeData, DtypeNameText, Kept, KindOfBinding, AllKindsKept, FieldKindsKept,
         RenameArguments, RenameFields, RenameBinding, ReplaceMembers, GetAll;
    var dtype := String(DtypeNameText(n.dtype));
    assert ReplaceNames(dtype, names) == dtype <==> Get(names, DtypeNameText(n.dtype)) == DtypeNameText(n.dtype);
    TailEqual(n, names);
  }

  lemma TailEqual(n: Node, names: map<Text, Text>)
    ensures ReplaceMembers(TailMembers(n), names) == TailMembers(RenameNode(n, names))
        <==> && ReplaceNames(ShapeData(n.shape), names) == ShapeData(n.shape)
             && ReplaceNames(String(DtypeNameText(n.dtype)), names) == String(DtypeNameText(n.dtype))
             && ReplaceNames(BindingData(n.binding), names) == BindingData(RenameBinding(n.binding, names))
             && ReplaceNames(CallData(n.args, n.kwargs), names) == CallData(RenameArguments(n.args, names), RenameFields(n.kwargs, names))
  {
    hide ReplaceMembers, ReplaceNames, CallData, BindingData, ShapeData, DtypeNameText, RenameArguments, RenameFields,
         RenameBinding, GetAll;
    var a, b := Member("shape", ShapeData(n.shape)), Member("dtype", String(DtypeNameText(n.dtype)));
    var c, d := Member("binding", BindingData(n.binding)), Member("arguments", CallData(n.args, n.kwargs));
    FourMembers(a, b, c, d, names);
    QuadsEqual(Replaced(a, names), Replaced(b, names), Replaced(c, names), Replaced(d, names), a, b,
               Member("binding", BindingData(RenameBinding(n.binding, names))),
               Member("arguments", CallData(RenameArguments(n.args, names), RenameFields(n.kwargs, names))));
  }

  lemma NodeMembers(n: Node)
    ensures NodeData(n) == Dict(HeadMembers(n) + TailMembers(n))
  {
    hide Texts, ShapeData, DtypeNameText, BindingData, CallData;
  }

  lemma NodeReplaced(n: Node, names: map<Text, Text>)
    ensures ReplaceNames(NodeData(n), names) == NodeData(RenameNode(n, names)) <==> WordsKept(n, names)
  {
    HeadReplaced(n, names);
    TailReplaced(n, names);
    NodeMembers(n);
    NodeMembers(RenameNode(n, names));
    MembersConcat(HeadMembers(n), TailMembers(n), names);
    hide HeadMembers, TailMembers, NodeData, RenameNode, ReplaceMembers, WordsKept;
    SameStarts(HeadMembers(RenameNode(n, names)), ReplaceMembers(TailMembers(n), names), TailMembers(RenameNode(n, names)));
  }

  lemma {:induction false} NodesReplaced(nodes: seq<Node>, names: map<Text, Text>)
    ensures ReplaceAll(NodesData(nodes), names) == NodesData(RenameNodes(nodes, names)) <==> AllWordsKept(nodes, names)
  {
    hide NodeData, RenameNode, ReplaceNames, WordsKept;
    if nodes != [] {
      NodeReplaced(nodes[0], names);
      NodesReplaced(nodes[1..], names);
      assert RenameNodes(nodes, names)[1..] == RenameNodes(nodes[1..], names);
      SameHeads(ReplaceNames(NodeData(nodes[0]), names), NodeData(RenameNode(nodes[0], names)),
                ReplaceAll(NodesData(nodes[1..]), names), NodesData(RenameNodes(nodes[1..], names)));
    }
  }

  /**
   Replacing strings in the serialized graph is renaming the graph exactly when no dtype in use and no
   word of the format that occurs in it is replaced by another.
   */
  lemma ReplacingRenames(m: Manifest, names: map<Text, Text>)
    ensures ReplaceNames(ManifestData(m), names) == ManifestData(RenameManifest(m, names)) <==> AllWordsKept(m.nodes, names)
  {
    NodesReplaced(m.nodes, names);
    TextsRenamed(m.outputs, names);
    var a, b, c := Member("version", Number(m.version)), Member("nodes", Sequence(NodesData(m.nodes))),
                   Member("outputs", Sequence(Texts(m.outputs)));
    ThreeMembers(a, b, c, names);
    hide AllWordsKept, NodesData, RenameNodes, GetAll, Texts, ReplaceAll, ReplaceMembers;
    assert Replaced(a, names) == a;
    SameHeads(a, a, [Replaced(b, names), Replaced(c, names)],
              [Member("nodes", Sequence(NodesData(RenameNodes(m.nodes, names)))),
               Member("outputs", Sequence(Texts(GetAll(names, m.outputs))))]);
    PairsEqual(Replaced(b, names), Replaced(c, names), Member("nodes", Sequence(NodesData(RenameNodes(m.nodes, names)))),
               Member("outputs", Sequence(Texts(GetAll(names, m.outputs)))));
    Triples(a, Replaced(b, names), Replaced(c, names));
    Triples(a, Member("nodes", Sequence(NodesData(RenameNodes(m.nodes, names)))),
            Member("outputs", Sequence(Texts(GetAll(names, m.outputs)))));
  }

  lemma Triples<T>(a: T, b: T, c: T)
    ensures [a, b, c] == [a] + [b, c]
  {
  }
}
