/**
 What a straight-line FX graph computes, and when renaming its values keeps that. Nodes are lowered in
 order and a name denotes its latest definition, as the planner's environment has it
 (lib/fx_plan.ml:67-70, 388-435).
 */
module GraphNames {
  import opened Results
  import opened Utf8
  import opened FxGraph

  // ---------------------------------------------------------------------------------------
  // References
  // ---------------------------------------------------------------------------------------

  /** Every reference in an argument, in order, as the planner collects them. */
  function Refs(a: Argument): seq<Text>
    decreases a, 1
  {
    match a
    case NodeRef(name) => [name]
    case List(items) => RefsOfAll(items)
    case Tuple(elements) => RefsOfAll(elements)
    case Mapping(fields) => RefsOfFields(fields)
    case Slice(start, stop, step) => Refs(start) + Refs(stop) + Refs(step)
    case _ => []
  }

  function RefsOfAll(items: seq<Argument>): seq<Text>
    decreases items, 0
  {
    if items == [] then [] else Refs(items[0]) + RefsOfAll(items[1..])
  }

  function RefsOfFields(fields: seq<Field>): seq<Text>
    decreases fields, 0
  {
    if fields == [] then [] else Refs(fields[0].value) + RefsOfFields(fields[1..])
  }

  /** Everything node `n` reads. */
  function Operands(n: Node): seq<Text> {
    n.inputs + RefsOfAll(n.args) + RefsOfFields(n.kwargs)
  }

  /** Every place a reference can stand in, and the texts that are none. */
  lemma OperandsAre(n: Node, a: seq<Text>)
    requires |a| == 12 && n.inputs == [a[0]]
    requires n.args == [NodeRef(a[1]), Str(a[2]), List([NodeRef(a[3])]), Tuple([NodeRef(a[4])]),
                        Mapping([Field(a[5], NodeRef(a[6]))]), Slice(NodeRef(a[7]), NodeRef(a[8]), NodeRef(a[9]))]
    requires n.kwargs == [Field(a[10], NodeRef(a[11]))]
    ensures Operands(n) == [a[0], a[1], a[3], a[4], a[6], a[7], a[8], a[9], a[11]]
  {
    RefsOfSix(n.args);
    OneField(Field(a[5], NodeRef(a[6])));
    OneField(Field(a[10], NodeRef(a[11])));
    OneRef(a[3]);
    OneRef(a[4]);
    hide RefsOfAll, RefsOfFields;
    assert Refs(n.args[0]) == [a[1]] && Refs(n.args[1]) == [] && Refs(n.args[2]) == [a[3]];
    assert Refs(n.args[3]) == [a[4]] && Refs(n.args[4]) == [a[6]];
    assert Refs(n.args[5]) == [a[7]] + [a[8]] + [a[9]] == [a[7], a[8], a[9]];
    hide Refs;
    Gathered(a);
  }

  lemma Gathered(a: seq<Text>)
    requires |a| == 12
    ensures [a[0]] + ([a[1]] + ([] + ([a[3]] + ([a[4]] + ([a[6]] + [a[7], a[8], a[9]]))))) + [a[11]]
         == [a[0], a[1], a[3], a[4], a[6], a[7], a[8], a[9], a[11]]
  {
  }

  lemma OneRef(name: Text)
    ensures RefsOfAll([NodeRef(name)]) == [name]
  {
    assert [NodeRef(name)][1..] == [];
  }

  lemma OneField(f: Field)
    ensures RefsOfFields([f]) == Refs(f.value)
  {
    hide Refs;
    assert [f][1..] == [];
    assert Refs(f.value) + [] == Refs(f.value);
  }

  lemma RefsFrom(items: seq<Argument>, i: nat)
    requires i < |items|
    ensures RefsOfAll(items[i..]) == Refs(items[i]) + RefsOfAll(items[i + 1..])
  {
    hide Refs;
    assert items[i..][1..] == items[i + 1..];
  }

  lemma RefsOfSix(items: seq<Argument>)
    requires |items| == 6
    ensures RefsOfAll(items)
         == Refs(items[0]) + (Refs(items[1]) + (Refs(items[2]) + (Refs(items[3]) + (Refs(items[4]) + Refs(items[5])))))
  {
    assert RefsOfAll([]) == [];
    hide *;
    RefsFrom(items, 0);
    RefsFrom(items, 1);
    RefsFrom(items, 2);
    RefsFrom(items, 3);
    RefsFrom(items, 4);
    RefsFrom(items, 5);
    assert items[0..] == items && items[6..] == [];
    assert Refs(items[5]) + [] == Refs(items[5]);
  }

  // ---------------------------------------------------------------------------------------
  // Renaming
  // ---------------------------------------------------------------------------------------

  /** `names.get(text, text)`. */
  function Get(names: map<Text, Text>, text: Text): Text {
    if text in names then names[text] else text
  }

  function GetAll(names: map<Text, Text>, texts: seq<Text>): (r: seq<Text>)
    ensures |r| == |texts|
  {
    seq(|texts|, i requires 0 <= i < |texts| => Get(names, texts[i]))
  }

  /** Renames every text, references or not: that is what replacing strings in a manifest does. */
  function RenameArgument(a: Argument, names: map<Text, Text>): Argument
    decreases a, 1
  {
    match a
    case NodeRef(name) => NodeRef(Get(names, name))
    case Str(text) => Str(Get(names, text))
    case Symbol(symbol) => Symbol(Get(names, symbol))
    case List(items) => List(RenameArguments(items, names))
    case Tuple(elements) => Tuple(RenameArguments(elements, names))
    case Mapping(fields) => Mapping(RenameFields(fields, names))
    case Slice(start, stop, step) =>
      Slice(RenameArgument(start, names), RenameArgument(stop, names), RenameArgument(step, names))
    case _ => a
  }

  function RenameArguments(items: seq<Argument>, names: map<Text, Text>): (r: seq<Argument>)
    ensures |r| == |items|
    decreases items, 0
  {
    if items == [] then [] else [RenameArgument(items[0], names)] + RenameArguments(items[1..], names)
  }

  function RenameFields(fields: seq<Field>, names: map<Text, Text>): (r: seq<Field>)
    ensures |r| == |fields|
    decreases fields, 0
  {
    if fields == [] then []
    else [Field(Get(names, fields[0].name), RenameArgument(fields[0].value, names))] + RenameFields(fields[1..], names)
  }

  function RenameBinding(b: Binding, names: map<Text, Text>): Binding {
    match b
    case TensorStore(key) => TensorStore(Get(names, key))
    case _ => b
  }

  function RenameNode(n: Node, names: map<Text, Text>): Node {
    Node(Get(names, n.name), Get(names, n.op), Get(names, n.target), GetAll(names, n.inputs), n.shape, n.dtype,
         RenameBinding(n.binding, names), RenameArguments(n.args, names), RenameFields(n.kwargs, names))
  }

  function RenameNodes(nodes: seq<Node>, names: map<Text, Text>): (r: seq<Node>)
    ensures |r| == |nodes|
  {
    seq(|nodes|, i requires 0 <= i < |nodes| => RenameNode(nodes[i], names))
  }

  function RenameManifest(m: Manifest, names: map<Text, Text>): Manifest {
    Manifest(m.version, RenameNodes(m.nodes, names), GetAll(names, m.outputs))
  }

  lemma GetConcat(names: map<Text, Text>, a: seq<Text>, b: seq<Text>)
    ensures GetAll(names, a + b) == GetAll(names, a) + GetAll(names, b)
  {
  }

  lemma {:induction false} RefsRenamed(a: Argument, names: map<Text, Text>)
    ensures Refs(RenameArgument(a, names)) == GetAll(names, Refs(a))
    decreases a, 1
  {
    match a {
      case List(items) => RefsOfAllRenamed(items, names);
      case Tuple(elements) => RefsOfAllRenamed(elements, names);
      case Mapping(fields) => RefsOfFieldsRenamed(fields, names);
      case Slice(start, stop, step) =>
        RefsRenamed(start, names);
        RefsRenamed(stop, names);
        RefsRenamed(step, names);
        GetConcat(names, Refs(start), Refs(stop));
        GetConcat(names, Refs(start) + Refs(stop), Refs(step));
      case _ =>
    }
  }

  lemma {:induction false} RefsOfAllRenamed(items: seq<Argument>, names: map<Text, Text>)
    ensures RefsOfAll(RenameArguments(items, names)) == GetAll(names, RefsOfAll(items))
    decreases items, 0
  {
    if items != [] {
      RefsRenamed(items[0], names);
      RefsOfAllRenamed(items[1..], names);
      GetConcat(names, Refs(items[0]), RefsOfAll(items[1..]));
    }
  }

  lemma {:induction false} RefsOfFieldsRenamed(fields: seq<Field>, names: map<Text, Text>)
    ensures RefsOfFields(RenameFields(fields, names)) == GetAll(names, RefsOfFields(fields))
    decreases fields, 0
  {
    if fields != [] {
      RefsRenamed(fields[0].value, names);
      RefsOfFieldsRenamed(fields[1..], names);
      GetConcat(names, Refs(fields[0].value), RefsOfFields(fields[1..]));
    }
  }

  lemma OperandsRenamed(n: Node, names: map<Text, Text>)
    ensures Operands(RenameNode(n, names)) == GetAll(names, Operands(n))
  {
    RefsOfAllRenamed(n.args, names);
    RefsOfFieldsRenamed(n.kwargs, names);
    GetConcat(names, n.inputs, RefsOfAll(n.args));
    GetConcat(names, n.inputs + RefsOfAll(n.args), RefsOfFields(n.kwargs));
  }

  // ---------------------------------------------------------------------------------------
  // Dataflow
  // ---------------------------------------------------------------------------------------

  /** The latest definition of `name` before node `i`. */
  function Resolve(nodes: seq<Node>, i: nat, name: Text): (r: Option<nat>)
    requires i <= |nodes|
    ensures r.Some? ==> r.value < i && nodes[r.value].name == name
    ensures forall j :: (if r.Some? then r.value + 1 else 0) <= j < i ==> nodes[j].name != name
  {
    if i == 0 then None
    else if nodes[i - 1].name == name then Some(i - 1)
    else Resolve(nodes, i - 1, name)
  }

  /** Only the names before node `i` matter. */
  lemma {:induction false} ResolveSameNames(a: seq<Node>, b: seq<Node>, i: nat, name: Text)
    requires i <= |a| && i <= |b| && forall j :: 0 <= j < i ==> a[j].name == b[j].name
    ensures Resolve(a, i, name) == Resolve(b, i, name)
  {
    if i > 0 {
      ResolveSameNames(a, b, i - 1, name);
    }
  }

  function NamesOf(nodes: seq<Node>): set<Text> {
    set i | 0 <= i < |nodes| :: nodes[i].name
  }

  /** FX names every node once. */
  ghost predicate SingleAssignment(nodes: seq<Node>) {
    forall i, j :: 0 <= i < j < |nodes| ==> nodes[i].name != nodes[j].name
  }

  /** Nothing is referenced before it is defined. */
  ghost predicate Closed(nodes: seq<Node>) {
    forall i, k :: 0 <= i < |nodes| && 0 <= k < |Operands(nodes[i])| ==> Resolve(nodes, i, Operands(nodes[i])[k]).Some?
  }

  /** Every operand is defined by the same node as before the renaming. */
  ghost predicate DataflowKept(nodes: seq<Node>, names: map<Text, Text>) {
    forall i, k :: 0 <= i < |nodes| && 0 <= k < |Operands(nodes[i])| ==>
      Resolve(RenameNodes(nodes, names), i, Get(names, Operands(nodes[i])[k])) == Resolve(nodes, i, Operands(nodes[i])[k])
  }

  /** No node reads a value after a later one took its name. */
  ghost predicate NoneCaptured(nodes: seq<Node>, names: map<Text, Text>) {
    forall p, o, i :: 0 <= p < o < i < |nodes| && Get(names, nodes[p].name) == Get(names, nodes[o].name) ==>
      nodes[p].name !in Operands(nodes[i])
  }

  lemma ResolveUnique(nodes: seq<Node>, i: nat, p: nat)
    requires SingleAssignment(nodes) && p < i <= |nodes|
    ensures Resolve(nodes, i, nodes[p].name) == Some(p)
  {
  }

  lemma ResolveRenamed(nodes: seq<Node>, names: map<Text, Text>, i: nat, p: nat)
    requires p < i <= |nodes|
    ensures Resolve(RenameNodes(nodes, names), i, Get(names, nodes[p].name)) == Some(p)
        <==> forall o :: p < o < i ==> Get(names, nodes[o].name) != Get(names, nodes[p].name)
  {
    var r := Resolve(RenameNodes(nodes, names), i, Get(names, nodes[p].name));
    assert forall j :: 0 <= j < i ==> RenameNodes(nodes, names)[j].name == Get(names, nodes[j].name);
    assert r.Some? by {
      assert RenameNodes(nodes, names)[p].name == Get(names, nodes[p].name);
    }
  }

  /**
   Renaming keeps the dataflow of a straight-line graph exactly when no node reads a value that comes
   before another one of the same new name which is itself before the reader.
   */
  lemma RenamingKeepsDataflow(nodes: seq<Node>, names: map<Text, Text>)
    requires SingleAssignment(nodes) && Closed(nodes)
    ensures DataflowKept(nodes, names) <==> NoneCaptured(nodes, names)
  {
    if NoneCaptured(nodes, names) {
      forall i, k | 0 <= i < |nodes| && 0 <= k < |Operands(nodes[i])|
        ensures Resolve(RenameNodes(nodes, names), i, Get(names, Operands(nodes[i])[k])) == Resolve(nodes, i, Operands(nodes[i])[k])
      {
        UncapturedOperand(nodes, names, i, k);
      }
    }
    if !NoneCaptured(nodes, names) {
      var p, o, i :| 0 <= p < o < i < |nodes| && Get(names, nodes[p].name) == Get(names, nodes[o].name)
                     && nodes[p].name in Operands(nodes[i]);
      CapturedOperand(nodes, names, p, o, i);
    }
  }

  lemma UncapturedOperand(nodes: seq<Node>, names: map<Text, Text>, i: nat, k: nat)
    requires Closed(nodes) && NoneCaptured(nodes, names) && i < |nodes| && k < |Operands(nodes[i])|
    ensures Resolve(RenameNodes(nodes, names), i, Get(names, Operands(nodes[i])[k])) == Resolve(nodes, i, Operands(nodes[i])[k])
  {
    var r := Operands(nodes[i])[k];
    var p := Resolve(nodes, i, r).value;
    assert nodes[p].name == r && r in Operands(nodes[i]);
    ResolveRenamed(nodes, names, i, p);
  }

  lemma CapturedOperand(nodes: seq<Node>, names: map<Text, Text>, p: nat, o: nat, i: nat)
    requires SingleAssignment(nodes) && p < o < i < |nodes|
    requires Get(names, nodes[p].name) == Get(names, nodes[o].name) && nodes[p].name in Operands(nodes[i])
    ensures !DataflowKept(nodes, names)
  {
    var k :| 0 <= k < |Operands(nodes[i])| && Operands(nodes[i])[k] == nodes[p].name;
    ResolveUnique(nodes, i, p);
    ResolveRenamed(nodes, names, i, p);
    assert Resolve(RenameNodes(nodes, names), i, Get(names, Operands(nodes[i])[k])) != Resolve(nodes, i, Operands(nodes[i])[k]);
  }

  // ---------------------------------------------------------------------------------------
  // Values
  // ---------------------------------------------------------------------------------------

  /** An argument with the names of its references taken out: what an operation sees beside the values. */
  function Erase(a: Argument): Argument
    decreases a, 1
  {
    match a
    case NodeRef(_) => NodeRef([])
    case List(items) => List(EraseAll(items))
    case Tuple(elements) => Tuple(EraseAll(elements))
    case Mapping(fields) => Mapping(EraseFields(fields))
    case Slice(start, stop, step) => Slice(Erase(start), Erase(stop), Erase(step))
    case _ => a
  }

  function EraseAll(items: seq<Argument>): seq<Argument>
    decreases items, 0
  {
    if items == [] then [] else [Erase(items[0])] + EraseAll(items[1..])
  }

  function EraseFields(fields: seq<Field>): seq<Field>
    decreases fields, 0
  {
    if fields == [] then [] else [Field(fields[0].name, Erase(fields[0].value))] + EraseFields(fields[1..])
  }

  /** What an operation is, apart from its operands. */
  datatype Operation = Operation(
    op: Text, target: Text, shape: Option<seq<int>>, dtype: DtypeName, args: seq<Argument>, kwargs: seq<Field>)

  function OperationOf(n: Node): Operation {
    Operation(n.op, n.target, n.shape, n.dtype, EraseAll(n.args), EraseFields(n.kwargs))
  }

  /** Any meaning: of the runtime inputs by name, of the stored tensors by key and of the operations. */
  datatype Meaning<!V> = Meaning(runtime: Text -> V, store: Text -> V, apply: (Operation, seq<V>) -> V)

  /** What node `i` computes, when everything it needs is defined. */
  function Value<V>(nodes: seq<Node>, m: Meaning<V>, i: nat): Option<V>
    requires i < |nodes|
    decreases i, 1, 0
  {
    match nodes[i].binding
    case Runtime => Some(m.runtime(nodes[i].name))
    case TensorStore(key) => Some(m.store(key))
    case Computed =>
      match ValuesOf(nodes, m, i, Operands(nodes[i]))
      case None => None
      case Some(operands) => Some(m.apply(OperationOf(nodes[i]), operands))
  }

  function ValuesOf<V>(nodes: seq<Node>, m: Meaning<V>, i: nat, operands: seq<Text>): Option<seq<V>>
    requires i <= |nodes|
    decreases i, 0, |operands|
  {
    if operands == [] then Some([])
    else
      match Resolve(nodes, i, operands[0])
      case None => None
      case Some(p) =>
        match (Value(nodes, m, p), ValuesOf(nodes, m, i, operands[1..]))
        case (Some(head), Some(rest)) => Some([head] + rest)
        case _ => None
  }

  // ---------------------------------------------------------------------------------------
  // Renaming keeps the values
  // ---------------------------------------------------------------------------------------

  /** No text in the argument but a reference is a name that is replaced. */
  predicate CleanArgument(a: Argument, names: map<Text, Text>)
    decreases a, 1
  {
    match a
    case Str(text) => text !in names
    case Symbol(symbol) => symbol !in names
    case List(items) => CleanArguments(items, names)
    case Tuple(elements) => CleanArguments(elements, names)
    case Mapping(fields) => CleanFields(fields, names)
    case Slice(start, stop, step) =>
      CleanArgument(start, names) && CleanArgument(stop, names) && CleanArgument(step, names)
    case _ => true
  }

  predicate CleanArguments(items: seq<Argument>, names: map<Text, Text>)
    decreases items, 0
  {
    items != [] ==> CleanArgument(items[0], names) && CleanArguments(items[1..], names)
  }

  predicate CleanFields(fields: seq<Field>, names: map<Text, Text>)
    decreases fields, 0
  {
    fields != [] ==>
      fields[0].name !in names && CleanArgument(fields[0].value, names) && CleanFields(fields[1..], names)
  }

  /** The target of a placeholder may be renamed with it: nothing is computed from it. */
  predicate CleanNode(n: Node, names: map<Text, Text>) {
    match n.binding
    case Runtime => true
    case TensorStore(key) => key !in names
    case Computed => n.op !in names && n.target !in names && CleanArguments(n.args, names) && CleanFields(n.kwargs, names)
  }

  lemma {:induction false} EraseRenamed(a: Argument, names: map<Text, Text>)
    requires CleanArgument(a, names)
    ensures Erase(RenameArgument(a, names)) == Erase(a)
    decreases a, 1
  {
    match a {
      case List(items) => EraseAllRenamed(items, names);
      case Tuple(elements) => EraseAllRenamed(elements, names);
      case Mapping(fields) => EraseFieldsRenamed(fields, names);
      case Slice(start, stop, step) =>
        EraseRenamed(start, names);
        EraseRenamed(stop, names);
        EraseRenamed(step, names);
      case _ =>
    }
  }

  lemma {:induction false} EraseAllRenamed(items: seq<Argument>, names: map<Text, Text>)
    requires CleanArguments(items, names)
    ensures EraseAll(RenameArguments(items, names)) == EraseAll(items)
    decreases items, 0
  {
    if items != [] {
      EraseRenamed(items[0], names);
      EraseAllRenamed(items[1..], names);
    }
  }

  lemma {:induction false} EraseFieldsRenamed(fields: seq<Field>, names: map<Text, Text>)
    requires CleanFields(fields, names)
    ensures EraseFields(RenameFields(fields, names)) == EraseFields(fields)
    decreases fields, 0
  {
    if fields != [] {
      EraseRenamed(fields[0].value, names);
      EraseFieldsRenamed(fields[1..], names);
    }
  }

  /** The inputs are fed under their new names; the stored tensors and the operations are the same. */
  ghost predicate SameInputs<V>(nodes: seq<Node>, names: map<Text, Text>, m: Meaning<V>, renamed: Meaning<V>) {
    && renamed.store == m.store && renamed.apply == m.apply
    && forall i :: 0 <= i < |nodes| && nodes[i].binding.Runtime? ==>
         renamed.runtime(Get(names, nodes[i].name)) == m.runtime(nodes[i].name)
  }

  ghost predicate AllClean(nodes: seq<Node>, names: map<Text, Text>) {
    forall i :: 0 <= i < |nodes| ==> CleanNode(nodes[i], names)
  }

  /** A renaming that keeps the dataflow keeps what every node computes, whatever the operations mean. */
  lemma {:induction false} RenamingKeepsValues<V>(nodes: seq<Node>, names: map<Text, Text>, m: Meaning<V>,
                                                  renamed: Meaning<V>, i: nat)
    requires DataflowKept(nodes, names) && AllClean(nodes, names) && SameInputs(nodes, names, m, renamed)
    requires i < |nodes|
    ensures Value(RenameNodes(nodes, names), renamed, i) == Value(nodes, m, i)
    decreases i, 1, 0
  {
    var n := nodes[i];
    assert CleanNode(n, names) && RenameNodes(nodes, names)[i] == RenameNode(n, names);
    if n.binding.Computed? {
      EraseAllRenamed(n.args, names);
      EraseFieldsRenamed(n.kwargs, names);
      OperandsRenamed(n, names);
      assert forall k :: 0 <= k < |Operands(n)| ==>
        Resolve(RenameNodes(nodes, names), i, Get(names, Operands(n)[k])) == Resolve(nodes, i, Operands(n)[k]);
      OperandsKeepValues(nodes, names, m, renamed, i, Operands(n));
    }
  }

  lemma {:induction false} OperandsKeepValues<V>(nodes: seq<Node>, names: map<Text, Text>, m: Meaning<V>,
                                                 renamed: Meaning<V>, i: nat, operands: seq<Text>)
    requires DataflowKept(nodes, names) && AllClean(nodes, names) && SameInputs(nodes, names, m, renamed)
    requires i <= |nodes|
    requires forall k :: 0 <= k < |operands| ==>
               Resolve(RenameNodes(nodes, names), i, Get(names, operands[k])) == Resolve(nodes, i, operands[k])
    ensures ValuesOf(RenameNodes(nodes, names), renamed, i, GetAll(names, operands)) == ValuesOf(nodes, m, i, operands)
    decreases i, 0, |operands|
  {
    if operands != [] {
      assert GetAll(names, operands)[1..] == GetAll(names, operands[1..]);
      var r := Resolve(nodes, i, operands[0]);
      if r.Some? {
        RenamingKeepsValues(nodes, names, m, renamed, r.value);
      }
      OperandsKeepValues(nodes, names, m, renamed, i, operands[1..]);
    }
  }

  // ---------------------------------------------------------------------------------------
  // An operation and its operands are the whole call
  // ---------------------------------------------------------------------------------------

  lemma SplitSame(a: seq<Text>, b: seq<Text>, c: seq<Text>, d: seq<Text>)
    requires |a| == |c|
    ensures a + b == c + d ==> a == c && b == d
  {
    if a + b == c + d {
      assert a == (a + b)[..|a|] && b == (a + b)[|a|..];
    }
  }

  /** Arguments that are equal up to their references have as many of them, and are equal if these are. */
  lemma {:induction false} ErasedSame(a: Argument, b: Argument)
    requires Erase(a) == Erase(b)
    ensures |Refs(a)| == |Refs(b)|
    ensures Refs(a) == Refs(b) ==> a == b
    decreases a, 1
  {
    match a {
      case List(items) => AllErasedSame(items, b.items);
      case Tuple(elements) => AllErasedSame(elements, b.elements);
      case Mapping(fields) => FieldsErasedSame(fields, b.fields);
      case Slice(start, stop, step) =>
        ErasedSame(start, b.start);
        ErasedSame(stop, b.stop);
        ErasedSame(step, b.step);
        SplitSame(Refs(start) + Refs(stop), Refs(step), Refs(b.start) + Refs(b.stop), Refs(b.step));
        SplitSame(Refs(start), Refs(stop), Refs(b.start), Refs(b.stop));
      case _ =>
    }
  }

  lemma {:induction false} AllErasedSame(a: seq<Argument>, b: seq<Argument>)
    requires EraseAll(a) == EraseAll(b)
    ensures |RefsOfAll(a)| == |RefsOfAll(b)|
    ensures RefsOfAll(a) == RefsOfAll(b) ==> a == b
    decreases a, 0
  {
    hide Erase, Refs;
    if a != [] && b != [] {
      assert EraseAll(a)[0] == EraseAll(b)[0] && EraseAll(a)[1..] == EraseAll(b)[1..];
      ErasedSame(a[0], b[0]);
      AllErasedSame(a[1..], b[1..]);
      SplitSame(Refs(a[0]), RefsOfAll(a[1..]), Refs(b[0]), RefsOfAll(b[1..]));
      assert a == [a[0]] + a[1..] && b == [b[0]] + b[1..];
    }
  }

  lemma {:induction false} FieldsErasedSame(a: seq<Field>, b: seq<Field>)
    requires EraseFields(a) == EraseFields(b)
    ensures |RefsOfFields(a)| == |RefsOfFields(b)|
    ensures RefsOfFields(a) == RefsOfFields(b) ==> a == b
    decreases a, 0
  {
    hide Erase, Refs;
    if a != [] && b != [] {
      assert EraseFields(a)[0] == EraseFields(b)[0] && EraseFields(a)[1..] == EraseFields(b)[1..];
      ErasedSame(a[0].value, b[0].value);
      FieldsErasedSame(a[1..], b[1..]);
      SplitSame(Refs(a[0].value), RefsOfFields(a[1..]), Refs(b[0].value), RefsOfFields(b[1..]));
      assert a == [a[0]] + a[1..] && b == [b[0]] + b[1..];
    }
  }

  /**
   What a computed node's value is taken from is its whole call: nodes of the same operation and the same
   operands differ in nothing but their names and bindings.
   */
  lemma CallIsDetermined(a: Node, b: Node)
    ensures OperationOf(a) == OperationOf(b) && Operands(a) == Operands(b)
       <==> && a.op == b.op && a.target == b.target && a.shape == b.shape && a.dtype == b.dtype
            && a.inputs == b.inputs && a.args == b.args && a.kwargs == b.kwargs
  {
    if OperationOf(a) == OperationOf(b) && Operands(a) == Operands(b) {
      AllErasedSame(a.args, b.args);
      FieldsErasedSame(a.kwargs, b.kwargs);
      hide EraseAll, EraseFields, RefsOfAll, RefsOfFields;
      SplitSame(a.inputs + RefsOfAll(a.args), RefsOfFields(a.kwargs), b.inputs + RefsOfAll(b.args), RefsOfFields(b.kwargs));
      SplitSame(a.inputs, RefsOfAll(a.args), b.inputs, RefsOfAll(b.args));
    }
  }
}
