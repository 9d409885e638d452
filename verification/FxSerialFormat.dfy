/** The plain data one graph is serialized as. */
module FxSerialFormat {
  import opened Results
  import opened Utf8
  import opened FxGraph
  import opened GraphNames
  import opened FxSerial
  import opened FxGraphFormat

  /** A dictionary that starts with its kind. */
  function Kinded(kind: string, more: seq<Member>): Data {
    Dict([Member("kind", Word(kind))] + more)
  }

  /** What argument `i` of `Arguments` is written as. */
  function Written(i: nat): Data
    requires i < 12
  {
    match i
    case 0 => Kinded("node", [Member("name", String([120]))])
    case 1 => Kinded("null", [])
    case 2 => Kinded("ellipsis", [])
    case 3 => Kinded("bool", [Member("value", Flag(true))])
    case 4 => Kinded("int", [Member("value", Number(-2))])
    case 5 => Kinded("float", [Member("value", Real(0x3FF8_0000_0000_0000))])
    case 6 => Kinded("string", [Member("value", String([233]))])
    case 7 => Kinded("symbol", [Member("value", String([0x1F600]))])
    case 8 => Kinded("list", [Member("items", Sequence([Kinded("null", []), Kinded("bool", [Member("value", Flag(false))])]))])
    case 9 => Kinded("tuple", [Member("items", Sequence([Kinded("ellipsis", [])]))])
    case 10 => Kinded("mapping", [Member("items", Sequence([Dict([Member("name", String([107])),
                                                                  Member("value", Kinded("null", []))])]))])
    case 11 => Kinded("slice", [Member("start", Kinded("null", [])),
                                Member("stop", Kinded("int", [Member("value", Number(258))])),
                                Member("step", Kinded("ellipsis", []))])
  }

  function ArgumentsWritten(): (r: seq<Data>)
    ensures |r| == 12 && forall i :: 0 <= i < 12 ==> r[i] == Written(i)
  {
    seq(12, i requires 0 <= i < 12 => Written(i))
  }

  lemma {:induction false} ArgumentsAt(items: seq<Argument>, i: nat)
    requires i < |items|
    ensures |ArgumentsData(items)| == |items| && ArgumentsData(items)[i] == ArgumentData(items[i])
  {
    hide ArgumentData;
    if i > 0 {
      ArgumentsAt(items[1..], i - 1);
    } else if |items| > 1 {
      ArgumentsAt(items[1..], 0);
    }
  }

  lemma KindedIs(kind: string, m: Member)
    ensures Kinded(kind, []) == Dict([Member("kind", Word(kind))])
    ensures Kinded(kind, [m]) == Dict([Member("kind", Word(kind)), m])
  {
    hide Word;
  }

  lemma KindedThree(kind: string, a: Member, b: Member, c: Member)
    ensures Kinded(kind, [a, b, c]) == Dict([Member("kind", Word(kind)), a, b, c])
  {
    hide Word;
  }

  lemma PlainData(flag: bool, number: int, m: Member)
    ensures ArgumentData(Null) == Kinded("null", []) && ArgumentData(Ellipsis) == Kinded("ellipsis", [])
    ensures ArgumentData(Bool(flag)) == Kinded("bool", [Member("value", Flag(flag))])
    ensures ArgumentData(Int(number)) == Kinded("int", [Member("value", Number(number))])
  {
    KindedIs("null", m);
    KindedIs("ellipsis", m);
    KindedIs("bool", Member("value", Flag(flag)));
    KindedIs("int", Member("value", Number(number)));
    hide Word, Kinded;
  }

  lemma TextData(text: Text, bits: Double)
    ensures ArgumentData(NodeRef(text)) == Kinded("node", [Member("name", String(text))])
    ensures ArgumentData(Str(text)) == Kinded("string", [Member("value", String(text))])
    ensures ArgumentData(Symbol(text)) == Kinded("symbol", [Member("value", String(text))])
    ensures ArgumentData(Float(bits)) == Kinded("float", [Member("value", Real(bits))])
  {
    KindedIs("node", Member("name", String(text)));
    KindedIs("string", Member("value", String(text)));
    KindedIs("symbol", Member("value", String(text)));
    KindedIs("float", Member("value", Real(bits)));
    hide Word, Kinded;
  }

  lemma Listed(a: Argument, b: Argument)
    ensures ArgumentsData([a]) == [ArgumentData(a)] && ArgumentsData([a, b]) == [ArgumentData(a), ArgumentData(b)]
  {
    hide ArgumentData;
    assert [a, b][1..] == [b] && [a][1..] == [] && [b][1..] == [];
  }

  lemma ListData(items: seq<Argument>, f: Field)
    ensures ArgumentData(List(items)) == Kinded("list", [Member("items", Sequence(ArgumentsData(items)))])
    ensures ArgumentData(Tuple(items)) == Kinded("tuple", [Member("items", Sequence(ArgumentsData(items)))])
    ensures ArgumentData(Mapping([f]))
         == Kinded("mapping", [Member("items", Sequence([Dict([Member("name", String(f.name)),
                                                               Member("value", ArgumentData(f.value))])]))])
  {
    var fields := Member("items", Sequence([Dict([Member("name", String(f.name)), Member("value", ArgumentData(f.value))])]));
    KindedIs("list", Member("items", Sequence(ArgumentsData(items))));
    KindedIs("tuple", Member("items", Sequence(ArgumentsData(items))));
    KindedIs("mapping", fields);
    assert [f][1..] == [];
    assert FieldsData([f]) == [FieldData(f)];
    hide Word, Kinded, ArgumentsData;
  }

  lemma SliceData(a: Argument, b: Argument, c: Argument)
    ensures ArgumentData(Slice(a, b, c))
         == Kinded("slice", [Member("start", ArgumentData(a)), Member("stop", ArgumentData(b)), Member("step", ArgumentData(c))])
  {
    KindedThree("slice", Member("start", ArgumentData(a)), Member("stop", ArgumentData(b)), Member("step", ArgumentData(c)));
    hide Word, Kinded;
  }

  lemma LeafIsWritten(i: nat)
    requires i < 8
    ensures ArgumentData(Arguments()[i]) == Written(i)
  {
    PlainData(true, -2, Member("", Nothing));
    TextData(if i == 0 then [120] else if i == 6 then [233] else [0x1F600], 0x3FF8_0000_0000_0000);
    hide Kinded, ArgumentData;
  }

  lemma TreeIsWritten(i: nat)
    requires 8 <= i < 12
    ensures ArgumentData(Arguments()[i]) == Written(i)
  {
    PlainData(false, 258, Member("", Nothing));
    Listed(Null, Bool(false));
    Listed(Ellipsis, Null);
    ListData(if i == 8 then [Null, Bool(false)] else [Ellipsis], Field([107], Null));
    SliceData(Null, Int(258), Ellipsis);
    hide Kinded, ArgumentData, ArgumentsData;
  }

  // ---------------------------------------------------------------------------------------
  // One manifest
  // ---------------------------------------------------------------------------------------

  /** `Input` as data, for a dtype of this name. */
  function InputWritten(dtype: Text): Data {
    Dict([Member("name", String([120])), Member("op", String([112])), Member("target", String([116])),
          Member("inputs", Sequence([])), Member("shape", Sequence([Number(2), Number(300)])),
          Member("dtype", String(dtype)), Member("binding", Kinded("runtime", [])),
          Member("arguments", Dict([Member("args", Sequence([])), Member("kwargs", Sequence([]))]))])
  }

  /** The one argument of `Call` by keyword. */
  function Keyword(): Data {
    Dict([Member("name", String([98])), Member("value", Kinded("bool", [Member("value", Flag(false))]))])
  }

  /** `Call` as data. */
  function CallWritten(): Data {
    Dict([Member("name", String([121])), Member("op", String([99])), Member("target", String([97, 100])),
          Member("inputs", Sequence([String([120]), String([119])])), Member("shape", Nothing),
          Member("dtype", Word("float32")), Member("binding", Kinded("computed", [])),
          Member("arguments", Dict([Member("args", Sequence(ArgumentsWritten())),
                                    Member("kwargs", Sequence([Keyword()]))]))])
  }

  /** `Weight` as data. */
  function WeightWritten(): Data {
    Dict([Member("name", String([119])), Member("op", String([103])), Member("target", String([])),
          Member("inputs", Sequence([])), Member("shape", Sequence([])),
          Member("dtype", Word("EXL3_4")), Member("binding", Kinded("tensor-store", [Member("key", String([107, 49]))])),
          Member("arguments", Dict([Member("args", Sequence([])), Member("kwargs", Sequence([]))]))])
  }

  lemma NodeParts(n: Node, inputs: seq<Data>, shape: Data, dtype: Text, binding: Data, args: seq<Data>,
                  kwargs: seq<Data>)
    requires Texts(n.inputs) == inputs && ShapeData(n.shape) == shape && DtypeNameText(n.dtype) == dtype
    requires BindingData(n.binding) == binding && ArgumentsData(n.args) == args && FieldsData(n.kwargs) == kwargs
    ensures NodeData(n)
         == Dict([Member("name", String(n.name)), Member("op", String(n.op)), Member("target", String(n.target)),
                  Member("inputs", Sequence(inputs)), Member("shape", shape), Member("dtype", String(dtype)),
                  Member("binding", binding),
                  Member("arguments", Dict([Member("args", Sequence(args)), Member("kwargs", Sequence(kwargs))]))])
  {
    hide Texts, ShapeData, DtypeNameText, BindingData, ArgumentsData, FieldsData;
  }

  lemma Bindings(key: Text, m: Member)
    ensures BindingData(Runtime) == Kinded("runtime", []) && BindingData(Computed) == Kinded("computed", [])
    ensures BindingData(TensorStore(key)) == Kinded("tensor-store", [Member("key", String(key))])
  {
    KindedIs("runtime", m);
    KindedIs("computed", m);
    KindedIs("tensor-store", Member("key", String(key)));
    hide Word, Kinded;
  }

  lemma TextsOfTwo(a: Text, b: Text)
    ensures Texts([a, b]) == [String(a), String(b)] && Texts([]) == []
  {
    assert [a, b][1..] == [b] && [b][1..] == [];
    assert Texts([b]) == [String(b)];
  }

  lemma NumbersOfTwo(a: int, b: int)
    ensures Numbers([a, b]) == [Number(a), Number(b)] && Numbers([]) == []
  {
    assert [a, b][1..] == [b] && [b][1..] == [];
    assert Numbers([b]) == [Number(b)];
  }

  lemma NoArguments()
    ensures ArgumentsData([]) == [] && FieldsData([]) == []
  {
  }

  lemma InputIs(dtype: Dtype)
    ensures NodeData(Input(dtype)) == InputWritten(Ascii(DtypeText(dtype)))
  {
    NoArguments();
    TextsOfTwo([], []);
    NumbersOfTwo(2, 300);
    Bindings([], Member("", Nothing));
    Spelled(dtype);
    hide Texts, Numbers, DtypeNameText, BindingData, ArgumentsData, FieldsData, Kinded, NodeData;
    NodeParts(Input(dtype), [], Sequence([Number(2), Number(300)]), Ascii(DtypeText(dtype)), Kinded("runtime", []), [], []);
  }

  lemma Spelled(dtype: Dtype)
    ensures DtypeNameText(DtypeName(false, dtype)) == Ascii(DtypeText(dtype))
    ensures DtypeNameText(DtypeName(true, dtype)) == Ascii("torch." + DtypeText(dtype))
  {
    hide DtypeText;
    assert "" + DtypeText(dtype) == DtypeText(dtype);
  }

  lemma WeightIs()
    ensures NodeData(Weight()) == WeightWritten()
  {
    NoArguments();
    TextsOfTwo([], []);
    NumbersOfTwo(0, 0);
    Bindings([107, 49], Member("", Nothing));
    Spelled(EXL3_4);
    assert DtypeText(EXL3_4) == "EXL3_4";
    hide Texts, Numbers, DtypeNameText, BindingData, ArgumentsData, FieldsData, Kinded, NodeData, Ascii;
    NodeParts(Weight(), [], Sequence([]), Ascii("EXL3_4"), Kinded("tensor-store", [Member("key", String([107, 49]))]), [], []);
  }

  lemma AllWritten()
    ensures ArgumentsData(Arguments()) == ArgumentsWritten()
  {
    hide *;
    ArgumentsAt(Arguments(), 0);
    forall i | 0 <= i < 12
      ensures ArgumentsData(Arguments())[i] == Written(i)
    {
      ArgumentsAt(Arguments(), i);
      if i < 8 {
        LeafIsWritten(i);
      } else {
        TreeIsWritten(i);
      }
    }
  }

  lemma CallFields()
    ensures var n := Call();
            && n.name == [121] && n.op == [99] && n.target == [97, 100] && n.inputs == [[120], [119]] && n.shape == None
            && n.dtype == DtypeName(false, Float32) && n.binding == Computed && n.args == Arguments()
            && n.kwargs == [Field([98], Bool(false))]
  {
    hide Arguments;
  }

  lemma NoShape()
    ensures ShapeData(None) == Nothing && DtypeText(Float32) == "float32"
  {
  }

  lemma CallIs()
    ensures NodeData(Call()) == CallWritten()
  {
    CallFields();
    NoShape();
    hide *;
    TextsOfTwo([120], [119]);
    Bindings([], Member("", Nothing));
    Spelled(Float32);
    KeywordIs();
    AllWritten();
    NodeParts(Call(), [String([120]), String([119])], Nothing, Ascii("float32"), Kinded("computed", []),
              ArgumentsWritten(), [Keyword()]);
    CallIsWritten();
  }

  lemma CallIsWritten()
    ensures CallWritten()
         == Dict([Member("name", String([121])), Member("op", String([99])), Member("target", String([97, 100])),
                  Member("inputs", Sequence([String([120]), String([119])])), Member("shape", Nothing),
                  Member("dtype", String(Ascii("float32"))), Member("binding", Kinded("computed", [])),
                  Member("arguments", Dict([Member("args", Sequence(ArgumentsWritten())),
                                            Member("kwargs", Sequence([Keyword()]))]))])
  {
    hide Ascii, Kinded, ArgumentsWritten;
  }

  lemma KeywordIs()
    ensures FieldsData([Field([98], Bool(false))]) == [Keyword()]
  {
    var f := Field([98], Bool(false));
    PlainData(false, 0, Member("", Nothing));
    hide ArgumentData, Kinded;
    assert [f][1..] == [];
    assert FieldsData([f]) == [FieldData(f)];
  }

  /** A manifest with every kind of binding and of argument, as the dictionaries it is serialized as. */
  lemma WholeManifest(dtype: Dtype)
    ensures ManifestData(Sample(dtype))
         == Dict([Member("version", Number(2)),
                  Member("nodes", Sequence([InputWritten(Ascii(DtypeText(dtype))), CallWritten(), WeightWritten()])),
                  Member("outputs", Sequence([String([121]), String([120])]))])
  {
    var m := Sample(dtype);
    assert m.nodes == [Input(dtype), Call(), Weight()] && m.outputs == [[121], [120]] && m.version == 2;
    hide *;
    InputIs(dtype);
    CallIs();
    WeightIs();
    TextsOfTwo([121], [120]);
    ManifestOf(m, Input(dtype), Call(), Weight());
  }

  lemma {:induction false} NodesAt(nodes: seq<Node>, i: nat)
    requires i < |nodes|
    ensures |NodesData(nodes)| == |nodes| && NodesData(nodes)[i] == NodeData(nodes[i])
  {
    hide NodeData;
    if i > 0 {
      NodesAt(nodes[1..], i - 1);
    } else if |nodes| > 1 {
      NodesAt(nodes[1..], 0);
    }
  }

  lemma ManifestOf(m: Manifest, a: Node, b: Node, c: Node)
    requires m.nodes == [a, b, c]
    ensures ManifestData(m)
         == Dict([Member("version", Number(m.version)), Member("nodes", Sequence([NodeData(a), NodeData(b), NodeData(c)])),
                  Member("outputs", Sequence(Texts(m.outputs)))])
  {
    hide NodeData, Texts, NodesData;
    NodesAt(m.nodes, 0);
    NodesAt(m.nodes, 1);
    NodesAt(m.nodes, 2);
    assert NodesData(m.nodes) == [NodeData(a), NodeData(b), NodeData(c)];
  }
}
