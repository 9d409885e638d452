/**
 A model of two layers traced through the functional cache, built: the hypotheses of `TracedTarget` are
 met together.
 */
module TracedExample {
  import opened Results
  import opened Utf8
  import opened FxGraph
  import opened GraphNames
  import opened FxSerial
  import opened TargetGraph
  import opened TargetLaws
  import opened TargetOutputs
  import opened CacheTrace
  import opened TracedTarget
  import C = CaptureFx

  // ---------------------------------------------------------------------------------------
  // The traced graph
  // ---------------------------------------------------------------------------------------

  /** The name of the placeholder of cache state `s`. */
  function CacheInput(s: nat): Text
    requires s < 4
  {
    Ascii("l_cache_states_") + [48 + s] + Ascii("_")
  }

  function Computation(name: Text, inputs: seq<Text>): Node {
    Node(name, Ascii("call_function"), name, inputs, None, DtypeName(true, Float32), Computed, [], [])
  }

  function Placeholder(s: nat): Node
    requires s < 4
  {
    Node(CacheInput(s), Ascii("placeholder"), CacheInput(s), [], None, DtypeName(true, Float32), Runtime, [], [])
  }

  const LOGITS: Text := [1]
  const HIDDEN: Text := [2]

  /** The key (even `s`) or value node of an update: the old state and the hidden state concatenated. */
  function Updated(s: nat): Node
    requires s < 4
  {
    Computation([3 + s], [CacheInput(s), HIDDEN])
  }

  function Start(): Tracing {
    var inputs := [CacheInput(0), CacheInput(1), CacheInput(2), CacheInput(3)];
    Tracing([Placeholder(0), Placeholder(1), Placeholder(2), Placeholder(3)], inputs, inputs)
  }

  function WithHidden(): Tracing {
    Start().(nodes := Start().nodes + [Computation(HIDDEN, [])])
  }

  function FirstLayer(): Tracing {
    Put(Put(WithHidden(), 0, Updated(0)), 1, Updated(1))
  }

  function SecondLayer(): Tracing {
    Put(Put(FirstLayer(), 2, Updated(2)), 3, Updated(3))
  }

  function Finished(): Tracing {
    SecondLayer().(nodes := SecondLayer().nodes + [Computation(LOGITS, [HIDDEN, [4]])])
  }

  function States(): seq<Tracing> {
    [Start(), WithHidden(), FirstLayer(), SecondLayer(), Finished()]
  }

  function Steps(): seq<Step> {
    [Emit(Computation(HIDDEN, [])), Concat(0, Updated(0), Updated(1)), Concat(1, Updated(2), Updated(3)),
     Emit(Computation(LOGITS, [HIDDEN, [4]]))]
  }

  function Outputs(): seq<Text> {
    [LOGITS, HIDDEN, [5], [6], [3], [4]]
  }

  function Output(): Node {
    Node(Ascii("output"), Ascii("output"), Ascii("output"), Outputs(), None, DtypeName(true, Float32), Computed, [], [])
  }

  function Model(): Manifest {
    Manifest(MANIFEST_VERSION, Finished().nodes + [Output()], Outputs())
  }

  // ---------------------------------------------------------------------------------------
  // It is one
  // ---------------------------------------------------------------------------------------

  lemma CacheInputShape(s: nat)
    requires s < 4
    ensures |CacheInput(s)| == 17 && CacheInput(s)[15] == 48 + s
  {
    assert |Ascii("l_cache_states_")| == 15 && |Ascii("_")| == 1;
  }

  /** The nodes of the example, their names apart from each other. */
  lemma Distinct()
    ensures forall s, r :: 0 <= s < r < 4 ==> CacheInput(s) != CacheInput(r)
    ensures forall s {:trigger CacheInput(s)} :: 0 <= s < 4 ==> |CacheInput(s)| == 17
    ensures |Ascii("output")| == 6
  {
    forall s | 0 <= s < 4
      ensures |CacheInput(s)| == 17 && CacheInput(s)[15] == 48 + s
    {
      CacheInputShape(s);
    }
    hide CacheInput;
    assert forall s, r :: 0 <= s < r < 4 && CacheInput(s) == CacheInput(r) ==> CacheInput(s)[15] == CacheInput(r)[15];
  }

  lemma OperandsOf(n: Node)
    requires n.args == [] && n.kwargs == []
    ensures Operands(n) == n.inputs
  {
    assert n.inputs + [] + [] == n.inputs;
  }

  lemma StartNodes(i: nat)
    requires i < 4
    ensures |Start().nodes| == 4 && Start().nodes[i].name == CacheInput(i) && Operands(Start().nodes[i]) == []
    ensures |Inputs()| == 4 && Inputs()[i] == CacheInput(i)
  {
    OperandsOf(Placeholder(i));
    hide CacheInput, Operands;
    assert i == 0 || i == 1 || i == 2 || i == 3;
  }

  lemma StartNames()
    ensures NamesOf(Start().nodes) == CacheInputs()
  {
    var nodes := Start().nodes;
    StartNodes(0);
    StartNodes(1);
    StartNodes(2);
    StartNodes(3);
    hide CacheInput, Operands, Start, Inputs;
    forall i | 0 <= i < 4
      ensures nodes[i].name in CacheInputs()
    {
      assert i == 0 || i == 1 || i == 2 || i == 3;
    }
  }

  lemma StartIsInitial()
    ensures Initial(Start()) && Start().origin == Inputs()
    ensures NamesOf(Start().nodes) == CacheInputs()
  {
    StartNames();
    Distinct();
    var nodes := Start().nodes;
    assert Start().slots == Start().origin == Inputs();
    forall i | 0 <= i < 4
      ensures Operands(nodes[i]) == [] && nodes[i].name == CacheInput(i) && Inputs()[i] == CacheInput(i)
      ensures CacheInput(i) in NamesOf(nodes)
    {
      StartNodes(i);
      assert nodes[i].name in NamesOf(nodes);
    }
    hide CacheInput, Operands, Start, NamesOf, Inputs;
  }

  function Inputs(): seq<Text> {
    [CacheInput(0), CacheInput(1), CacheInput(2), CacheInput(3)]
  }

  function CacheInputs(): set<Text> {
    {CacheInput(0), CacheInput(1), CacheInput(2), CacheInput(3)}
  }

  /** The names after each step. */
  lemma NamesOfHidden()
    ensures NamesOf(WithHidden().nodes) == CacheInputs() + {HIDDEN}
  {
    StartIsInitial();
    NamesSnoc(Start().nodes, Computation(HIDDEN, []));
    hide CacheInput, NamesOf, CacheInputs, Start, Initial;
  }

  lemma NamesOfUpdate(t: Tracing, l: nat, names: set<Text>)
    requires l < 2 && |t.slots| == 4 && NamesOf(t.nodes) == names
    ensures NamesOf(Put(Put(t, 2 * l, Updated(2 * l)), 2 * l + 1, Updated(2 * l + 1)).nodes)
         == names + {[3 + 2 * l]} + {[4 + 2 * l]}
  {
    NamesSnoc(t.nodes, Updated(2 * l));
    NamesSnoc(t.nodes + [Updated(2 * l)], Updated(2 * l + 1));
    hide CacheInput, NamesOf;
  }

  lemma NamesOfFirst()
    ensures NamesOf(FirstLayer().nodes) == CacheInputs() + {HIDDEN, [3], [4]}
  {
    NamesOfHidden();
    NamesOfUpdate(WithHidden(), 0, CacheInputs() + {HIDDEN});
    hide NamesOf, CacheInputs, WithHidden, Updated, Put;
  }

  lemma NamesOfSecond()
    ensures NamesOf(SecondLayer().nodes) == CacheInputs() + {HIDDEN, [3], [4], [5], [6]}
  {
    NamesOfFirst();
    var names := CacheInputs() + {HIDDEN, [3], [4]};
    assert |FirstLayer().slots| == 4;
    hide NamesOf, CacheInputs, FirstLayer, Updated, Put, CacheInput, Inputs, Start, WithHidden;
    NamesOfUpdate(FirstLayer(), 1, names);
    assert names + {[5]} + {[6]} == CacheInputs() + {HIDDEN, [3], [4], [5], [6]};
  }

  lemma NamesOfFinished()
    ensures NamesOf(Finished().nodes) == CacheInputs() + {HIDDEN, [3], [4], [5], [6], LOGITS}
  {
    NamesOfSecond();
    NamesSnoc(SecondLayer().nodes, Computation(LOGITS, [HIDDEN, [4]]));
    hide NamesOf, CacheInputs, SecondLayer;
  }

  lemma SlotsAre()
    ensures WithHidden().origin == FirstLayer().origin == SecondLayer().origin == Finished().origin == Inputs()
    ensures WithHidden().slots == Inputs() && FirstLayer().slots == [[3], [4], CacheInput(2), CacheInput(3)]
    ensures SecondLayer().slots == Finished().slots == [[3], [4], [5], [6]]
  {
    hide CacheInput;
  }

  /** A short name is none of the cache inputs'. */
  lemma ShortName(x: Text)
    requires |x| != 17
    ensures x !in CacheInputs() && x !in Inputs()
  {
    Distinct();
    hide CacheInput;
  }

  lemma UpdatedReads(t: Tracing, s: nat)
    requires s < 4 && t.origin == Inputs() && HIDDEN in NamesOf(t.nodes)
    ensures Reads(t, Updated(s), Some(CacheInput(s)))
  {
    OperandsOf(Updated(s));
    ShortName(HIDDEN);
    hide CacheInput, Operands, NamesOf, Inputs;
  }

  lemma HiddenIsLegal()
    ensures Legal(Start(), Emit(Computation(HIDDEN, []))) && Next(Start(), Emit(Computation(HIDDEN, []))) == WithHidden()
  {
    StartIsInitial();
    ShortName(HIDDEN);
    OperandsOf(Computation(HIDDEN, []));
    hide CacheInputs, NamesOf, Operands, Initial, Start;
  }

  lemma UpdateIsLegal(t: Tracing, l: nat, names: set<Text>)
    requires l < 2 && |t.slots| == 4 && t.origin == Inputs()
    requires t.slots[2 * l] == CacheInput(2 * l) && t.slots[2 * l + 1] == CacheInput(2 * l + 1)
    requires NamesOf(t.nodes) == CacheInputs() + names && HIDDEN in names && [3 + 2 * l] !in names && [4 + 2 * l] !in names
    ensures Legal(t, Concat(l, Updated(2 * l), Updated(2 * l + 1)))
    ensures Next(t, Concat(l, Updated(2 * l), Updated(2 * l + 1)))
         == Put(Put(t, 2 * l, Updated(2 * l)), 2 * l + 1, Updated(2 * l + 1))
  {
    ShortName([3 + 2 * l]);
    ShortName([4 + 2 * l]);
    UpdatedReads(t, 2 * l);
    UpdatedReads(t, 2 * l + 1);
    hide CacheInput, CacheInputs, NamesOf, Reads, Inputs, Put;
  }

  lemma LogitsAreLegal()
    ensures Legal(SecondLayer(), Steps()[3]) && Next(SecondLayer(), Steps()[3]) == Finished()
  {
    NamesOfSecond();
    SlotsAre();
    ShortName(HIDDEN);
    ShortName([4]);
    ShortName(LOGITS);
    OperandsOf(Computation(LOGITS, [HIDDEN, [4]]));
    hide CacheInput, CacheInputs, NamesOf, Operands, SecondLayer, Inputs, Updated;
  }

  lemma FirstIsLegal()
    ensures Legal(WithHidden(), Concat(0, Updated(0), Updated(1)))
    ensures Next(WithHidden(), Concat(0, Updated(0), Updated(1))) == FirstLayer()
  {
    NamesOfHidden();
    SlotsAre();
    UpdateIsLegal(WithHidden(), 0, {HIDDEN});
    hide CacheInput, CacheInputs, NamesOf, Legal, Next, Updated, WithHidden, Put;
  }

  lemma SecondIsLegal()
    ensures Legal(FirstLayer(), Concat(1, Updated(2), Updated(3)))
    ensures Next(FirstLayer(), Concat(1, Updated(2), Updated(3))) == SecondLayer()
  {
    NamesOfFirst();
    SlotsAre();
    UpdateIsLegal(FirstLayer(), 1, {HIDDEN, [3], [4]});
    hide CacheInput, CacheInputs, NamesOf, Legal, Next, Updated, FirstLayer, Put;
  }

  lemma StepsAreLegal()
    ensures IsTrace(States(), Steps())
  {
    StartIsInitial();
    HiddenIsLegal();
    FirstIsLegal();
    SecondIsLegal();
    LogitsAreLegal();
    hide CacheInputs, NamesOf, Initial, Legal, Next, Updated, Inputs, Start, WithHidden, FirstLayer, SecondLayer,
         Finished, Computation;
    var states, steps := States(), Steps();
    forall i | 0 <= i < 4
      ensures Legal(states[i], steps[i]) && states[i + 1] == Next(states[i], steps[i])
    {
      assert i == 0 || i == 1 || i == 2 || i == 3;
    }
  }

  // ---------------------------------------------------------------------------------------
  // It is built
  // ---------------------------------------------------------------------------------------

  /** A cache input is named after its state. */
  lemma CacheInputIsState(s: nat)
    requires s < 4
    ensures RuntimeName(CacheInput(s)) == Ok(StateName(s))
  {
    var prefix, middle, suffix := Ascii("l_cache_states_"), [48 + s], Ascii("_");
    CacheInputShape(s);
    assert |Ascii("l_input_ids_")| == 12 && |Ascii("l_position_ids_")| == 15;
    assert |Ascii("l_full_attention_mask_")| == 22 && |Ascii("l_sliding_attention_mask_")| == 25;
    assert |prefix| == 15 && |suffix| == 1;
    hide Ascii, StateName;
    var name := prefix + middle + suffix;
    assert CacheInput(s) == name;
    assert name[..15] == prefix && name[15..] == middle + suffix && name[16..] == suffix;
    assert (middle + suffix)[1..] == suffix && (middle + suffix)[..1] == middle;
  }

  lemma HiddenAndLogitsAreVisible()
    ensures Visible(Finished(), HIDDEN) && Visible(Finished(), LOGITS)
  {
    NamesOfFinished();
    SlotsAre();
    ShortName(HIDDEN);
    ShortName(LOGITS);
    hide CacheInput, CacheInputs, NamesOf, Finished, Inputs;
  }

  lemma OutputIsNew()
    ensures Output().name !in NamesOf(Finished().nodes)
  {
    NamesOfFinished();
    Distinct();
    ShortName(Ascii("output"));
    hide CacheInput, CacheInputs, NamesOf, Finished, Inputs, Ascii;
  }

  lemma ReturnsOutputs()
    ensures Returns(Finished(), Output())
  {
    OutputIsNew();
    HiddenAndLogitsAreVisible();
    SlotsAre();
    OperandsOf(Output());
    hide CacheInput, NamesOf, Operands, Finished, Inputs, Ascii, Visible;
    var slots := Finished().slots;
    assert slots[0] == [3] && slots[1] == [4] && slots[2] == [5] && slots[3] == [6];
  }

  /** The example is a traced graph of two layers. */
  lemma ModelIsTraced()
    ensures Traced(Model(), 2, States(), Steps(), Output())
  {
    StepsAreLegal();
    ReturnsOutputs();
    SlotsAre();
    forall s | 0 <= s < 4
      ensures RuntimeName(Inputs()[s]) == Ok(StateName(s))
    {
      CacheInputIsState(s);
      assert Inputs()[s] == CacheInput(s);
    }
    RuntimeNodes();
    OutputsAreOrdered();
    hide IsTrace, Returns, RuntimeName, StateName, Finished, Inputs, CacheInput, OrderedByLayer, Steps, Output;
    assert States()[4] == Finished();
  }

  lemma RuntimeNodes()
    ensures forall i :: 0 <= i < |Model().nodes| && Model().nodes[i].binding.Runtime? ==> Model().nodes[i].name in Inputs()
  {
    hide CacheInput;
    forall i | 0 <= i < |Model().nodes| && Model().nodes[i].binding.Runtime?
      ensures Model().nodes[i].name in Inputs()
    {
      assert i < 4;
      assert Model().nodes[i].name == Inputs()[i];
    }
  }

  lemma OutputsAreOrdered()
    ensures OrderedByLayer(Model().outputs, [[3], [4], [5], [6]], 2)
  {
  }

  lemma ModelEndsInOutput()
    ensures EndsInOutput(Model(), Output())
  {
    assert |Ascii("output")| == 6 && |Ascii("placeholder")| == 11 && |Ascii("call_function")| == 13;
    hide Ascii, CacheInput;
    forall i | 0 <= i < |Model().nodes| - 1
      ensures |Model().nodes[i].op| != 6
    {
      assert Model().nodes[i].op == if i < 4 then Ascii("placeholder") else Ascii("call_function");
    }
  }

  lemma {:induction false} NothingStored(nodes: seq<Node>)
    requires forall i :: 0 <= i < |nodes| ==> !nodes[i].binding.TensorStore?
    ensures ExternalNodes(nodes, map[]).Ok? && BoundKeys(nodes) == {}
  {
    if nodes != [] {
      NothingStored(nodes[..|nodes| - 1]);
    }
  }

  lemma ModelIsBound()
    ensures BindExternal(C.Captured(Model(), []), map[]).Ok?
  {
    forall i | 0 <= i < |Model().nodes|
      ensures !Model().nodes[i].binding.TensorStore?
    {
    }
    NothingStored(Model().nodes);
    assert C.Captured(Model(), []).tensors == [];
    hide ExternalNodes, BoundKeys, Model;
    var bindings: map<Text, ExternalTensor> := map[];
    assert KeysOf([]) == {} == bindings.Keys;
  }

  /** No value of the example has a semantic name to begin with. */
  lemma NoSemanticNames(kind: Kind, i: nat)
    requires (kind.Input? ==> kind.k < 4) && i < |Model().nodes|
    ensures NameOf(kind) != Model().nodes[i].name
  {
    NameAt(i);
    hide Model, NameOf, CacheInput;
    if i < 4 {
      NotACacheInput(kind, i);
    } else if i < 10 {
      NotShort(kind, Model().nodes[i].name);
    } else {
      NamesTellKinds(kind, kind);
    }
  }

  lemma NameAt(i: nat)
    requires i < |Model().nodes|
    ensures i < 11 && (i < 4 ==> Model().nodes[i].name == CacheInput(i))
    ensures 4 <= i < 10 ==> |Model().nodes[i].name| == 1 && Model().nodes[i].name[0] <= 6
    ensures i == 10 ==> Model().nodes[i].name == Ascii("output")
  {
    hide CacheInput, Ascii;
  }

  lemma NotShort(kind: Kind, x: Text)
    requires (kind.Input? ==> kind.k < 4) && |x| == 1 && x[0] <= 6
    ensures NameOf(kind) != x
  {
    LetterOfName(kind);
    Letters();
    hide NameOf, Ascii;
    assert LetterOf(kind)[0] > 6;
  }

  lemma NotACacheInput(kind: Kind, s: nat)
    requires (kind.Input? ==> kind.k < 4) && s < 4
    ensures NameOf(kind) != CacheInput(s)
  {
    LetterOfName(kind);
    Letters();
    CacheInputShape(s);
    CacheInputLetter(s);
    LogitsLength();
    hide NameOf, Ascii, CacheInput;
    assert !kind.Logits? ==> LetterOf(kind)[0] != Ascii("l")[0];
  }

  lemma LogitsLength()
    ensures |NameOf(Logits)| == 6
  {
    assert |Ascii("logits")| == 6;
  }

  lemma CacheInputLetter(s: nat)
    requires s < 4
    ensures CacheInput(s)[..1] == Ascii("l")
  {
    assert Ascii("l_cache_states_")[..1] == Ascii("l");
  }

  /** All hypotheses of `TracedBuild` hold of the example, and its build succeeds. */
  lemma ModelIsBuilt()
    ensures var captured := C.Captured(Model(), []);
            && BuildTarget(captured, map[], 2).Ok? && RuntimeNames(Model().nodes).Ok? && |Model().outputs| == 6
            && var names := RuntimeNames(Model().nodes).value + OutputNamesOf(Model().outputs, 2);
               TracedBuild(captured, map[], 2, BuildTarget(captured, map[], 2).value, names, States(), Steps(), Output())
  {
    var captured := C.Captured(Model(), []);
    ModelIsTraced();
    ModelEndsInOutput();
    ModelIsBound();
    LogitsIsNoState();
    hide IsTrace, Traced, EndsInOutput, BindExternal, BuildTarget, RuntimeNames, OutputNamesOf, Renames,
         KeptNamesAreSafe, States, Steps, Output, Model;
    TracedBuildAccepts(captured, map[], 2, States(), Steps(), Output());
    KeptNames(RuntimeNames(Model().nodes).value + OutputNamesOf(Model().outputs, 2));
  }

  lemma KeptNames(names: map<Text, Text>)
    requires Renames(Model().nodes, Model().outputs, 2, names) && Traced(Model(), 2, States(), Steps(), Output())
    ensures KeptNamesAreSafe(Model().nodes, names)
  {
    hide *;
    TracedParts(Model(), 2, States(), Steps(), Output());
    TracedIsStraightLine(Model(), States(), Steps(), Output());
    forall i | 0 <= i < |Model().nodes|
      ensures Model().nodes[i].name !in names.Values
    {
      NotGiven(names, i);
    }
    SingleNames(Model().nodes);
    FreshNamesAreSafe(Model().nodes, names);
  }

  lemma SingleNames(nodes: seq<Node>)
    requires StraightLine(nodes)
    ensures SingleAssignment(nodes)
  {
    hide Closed, SingleAssignment;
  }

  lemma NotGiven(names: map<Text, Text>, i: nat)
    requires Renames(Model().nodes, Model().outputs, 2, names) && Traced(Model(), 2, States(), Steps(), Output())
    requires i < |Model().nodes|
    ensures Model().nodes[i].name !in names.Values
  {
    TracedParts(Model(), 2, States(), Steps(), Output());
    hide Renames, Traced, IsTrace, Returns, Model, States, Steps, Output, NameOf, CacheInput;
    forall x | x in names
      ensures names[x] != Model().nodes[i].name
    {
      TracedTarget.KindOf(Model(), 2, States(), Steps(), Output(), names, x);
      var kind: Kind :| IsA(Model(), States()[|Steps()|], x, kind) && names[x] == NameOf(kind);
      NoSemanticNames(kind, i);
    }
  }

  lemma LogitsIsNoState()
    ensures |States()| == 5 && |Steps()| == 4 && |Model().outputs| == 6 && Model().outputs[0] !in States()[4].slots
  {
    SlotsAre();
    hide CacheInput, Finished;
  }
}
