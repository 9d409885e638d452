/** The names and the nodes of a target graph, written out. */
module TargetFormat {
  import opened Results
  import opened Utf8
  import opened FxGraph
  import opened GraphNames
  import opened FxSerial
  import opened TargetGraph
  import opened TargetLaws
  import C = CaptureFx

  // ---------------------------------------------------------------------------------------
  // Bound nodes
  // ---------------------------------------------------------------------------------------

  /**
   A tensor-store node of an accepted binding gets the key and the dtype of its external tensor, whose
   shape is the node's own; no other field, no other node, no output and no version changes, and no
   tensor is kept.
   */
  lemma BoundNode(captured: C.Captured, bindings: map<Text, ExternalTensor>, i: nat)
    requires BindExternal(captured, bindings).Ok? && i < |captured.manifest.nodes|
    ensures var m, r := captured.manifest, BindExternal(captured, bindings).value;
            var before := m.nodes[i];
            && r.manifest.version == m.version && r.manifest.outputs == m.outputs && r.tensors == []
            && |r.manifest.nodes| == |m.nodes|
            && var after := r.manifest.nodes[i];
               && after.name == before.name && after.op == before.op && after.target == before.target
               && after.inputs == before.inputs && after.shape == before.shape
               && after.args == before.args && after.kwargs == before.kwargs
               && match before.binding
                  case TensorStore(key) =>
                    && key in bindings && after.binding == TensorStore(bindings[key].key)
                    && after.dtype == bindings[key].dtype
                    && (before.shape == None ==> bindings[key].shape == [])
                    && (before.shape.Some? ==> bindings[key].shape == before.shape.value)
                  case _ => after.dtype == before.dtype && after.binding == before.binding
  {
    BindExternalAccepts(captured, bindings);
    ExternalNodesAre(captured.manifest.nodes, bindings);
    hide ExternalNodes, KeysOf, BoundKeys, IsBlank, DtypeNameText, DistinctTargets;
    assert Bindable(captured.manifest.nodes[i], bindings);
  }

  /** With fitting keys, the first node that cannot be bound decides the error. */
  lemma FirstObjection(captured: C.Captured, bindings: map<Text, ExternalTensor>, i: nat, key: Text)
    requires KeysOf(captured.tensors) == bindings.Keys && DistinctTargets(bindings) && i < |captured.manifest.nodes|
    requires forall j :: 0 <= j < i ==> Bindable(captured.manifest.nodes[j], bindings)
    requires !Bindable(captured.manifest.nodes[i], bindings) && captured.manifest.nodes[i].binding == TensorStore(key)
    ensures BindExternal(captured, bindings)
         == Err(if key !in bindings then NoBinding(key)
                else if Dims(captured.manifest.nodes[i].shape) != bindings[key].shape then ShapeDiffers(key)
                else BlankName)
  {
    var nodes := captured.manifest.nodes;
    ExternalNodesAre(nodes[..i], bindings);
    assert forall j :: 0 <= j < i ==> nodes[..i][j] == nodes[j];
    hide ExternalNodes, KeysOf, BoundKeys, IsBlank, DtypeNameText, DistinctTargets, External;
    ExternalSnoc(nodes, bindings, i, ExternalNodes(nodes[..i], bindings).value);
    ExternalFails(nodes, bindings, i + 1);
  }

  /** The code points that count as space in Unicode or as one of its line and field separators. */
  lemma SpacesExactly(c: int)
    ensures IsSpace(c)
       <==> c in [9, 10, 11, 12, 13, 28, 29, 30, 31, 32, 0x85, 0xA0, 0x1680, 0x2000, 0x2001, 0x2002, 0x2003, 0x2004,
                  0x2005, 0x2006, 0x2007, 0x2008, 0x2009, 0x200A, 0x2028, 0x2029, 0x202F, 0x205F, 0x3000]
  {
  }

  // ---------------------------------------------------------------------------------------
  // Names
  // ---------------------------------------------------------------------------------------

  lemma Written(layer: nat, value: bool, digits: string, name: string)
    requires Decimal(layer) == Ascii(digits)
    requires name == "cache.layer." + digits + if value then ".value" else ".key"
    ensures CacheName(layer, value) == Ascii(name)
  {
    hide Decimal;
  }

  lemma Digits()
    ensures Decimal(0) == Ascii("0") && Decimal(6) == Ascii("6") && Decimal(47) == Ascii("47")
    ensures Decimal(13) == Ascii("13") && Decimal(250) == Ascii("250")
  {
    assert Decimal(4) == [52] && Decimal(1) == [49] && Decimal(2) == [50];
    assert Decimal(25) == Decimal(2) + [53];
    assert Decimal(250) == Decimal(25) + [48];
  }

  /** The first and the last cache states of the 48 layers, and one of a deeper model. */
  lemma StateNamesAre()
    ensures StateName(0) == Ascii("cache.layer.0.key") && StateName(1) == Ascii("cache.layer.0.value")
    ensures StateName(94) == Ascii("cache.layer.47.key") && StateName(95) == Ascii("cache.layer.47.value")
    ensures StateName(500) == Ascii("cache.layer.250.key")
  {
    Digits();
    hide Decimal, Ascii;
    Written(0, false, "0", "cache.layer.0.key");
    Written(0, true, "0", "cache.layer.0.value");
    Written(47, false, "47", "cache.layer.47.key");
    Written(47, true, "47", "cache.layer.47.value");
    Written(250, false, "250", "cache.layer.250.key");
    hide CacheName;
  }

  /** The name the tracer gives the input for cache state `s`. */
  function TracedState(s: nat): Text {
    Ascii("l_cache_states_") + Decimal(s) + Ascii("_")
  }

  /** The input for state `2 * l` is the key of layer `l`, the one for `2 * l + 1` its value. */
  lemma StateInput(l: nat)
    ensures RuntimeName(TracedState(2 * l)) == Ok(CacheName(l, false))
    ensures RuntimeName(TracedState(2 * l + 1)) == Ok(CacheName(l, true))
  {
    NumberedInput(2 * l);
    NumberedInput(2 * l + 1);
    NamesOfLayer(l);
    hide *;
  }

  lemma NamesOfLayer(l: nat)
    ensures StateName(2 * l) == CacheName(l, false) && StateName(2 * l + 1) == CacheName(l, true)
  {
    hide CacheName;
  }

  lemma Unwrapped(prefix: Text, number: Text, suffix: Text)
    ensures var t := prefix + number + suffix;
            && StartsWith(t, prefix) && EndsWith(t, suffix)
            && RemoveSuffix(RemovePrefix(t, prefix), suffix) == number
  {
    var t := prefix + number + suffix;
    assert t[|prefix|..] == number + suffix;
    assert (number + suffix)[|number|..] == suffix && (number + suffix)[..|number|] == number;
  }

  lemma OtherInputs(t: Text)
    requires StartsWith(t, Ascii("l_cache_states_"))
    ensures t != Ascii("l_input_ids_") && t != Ascii("l_position_ids_")
    ensures t != Ascii("l_full_attention_mask_") && t != Ascii("l_sliding_attention_mask_")
  {
    assert t[2] == 99;
    assert Ascii("l_input_ids_")[2] == 105 && Ascii("l_position_ids_")[2] == 112;
    assert Ascii("l_full_attention_mask_")[2] == 102 && Ascii("l_sliding_attention_mask_")[2] == 115;
  }

  lemma NumberedInput(s: nat)
    ensures RuntimeName(TracedState(s)) == Ok(StateName(s))
  {
    ParseOfDecimal(s);
    Unwrapped(Ascii("l_cache_states_"), Decimal(s), Ascii("_"));
    OtherInputs(TracedState(s));
    hide Decimal, ParseDecimal, Ascii, StartsWith, EndsWith, RemovePrefix, RemoveSuffix, StateName;
  }

  lemma LogitsOutput(raw: seq<Text>, layers: nat)
    requires layers >= 2 && |raw| == 2 + 2 * layers && DistinctOutputs(raw, layers)
    ensures Get(OutputNamesOf(raw, layers), raw[0]) == Ascii("logits")
  {
    NameOfLogits(raw, layers);
    hide OutputNamesOf, Ascii, DistinctOutputs;
  }

  /**
   What the captured outputs of a decode graph are renamed to: the logits come first; the state of the
   last layer at 2 and 3, that of the one before it at 4 and 5, and those of the others from 6 on.
   */
  lemma OutputOrder(raw: seq<Text>, layers: nat, l: nat, value: bool)
    requires layers >= 2 && |raw| == 2 + 2 * layers && DistinctOutputs(raw, layers) && l < layers
    ensures Get(OutputNamesOf(raw, layers), raw[0]) == Ascii("logits")
    ensures var place := if l == layers - 1 then 2 else if l == layers - 2 then 4 else 6 + 2 * l;
            Get(OutputNamesOf(raw, layers), raw[if value then place + 1 else place]) == CacheName(l, value)
  {
    LogitsOutput(raw, layers);
    var first := if l == layers - 1 then 0 else if l == layers - 2 then 2 else 4 + 2 * l;
    var j := if value then first + 1 else first;
    NameOfOutput(raw, layers, j);
    NamesOfLayer(l);
    assert StateOfOutput(layers, j) == if value then 2 * l + 1 else 2 * l;
    hide OutputNamesOf, CacheName, Ascii, DistinctOutputs, StateOfOutput, StateName;
  }

  /** The target graph returns the logits, and then the key and the value of every layer in order. */
  lemma TargetOutputsAre(m: Manifest, layers: nat, t: Manifest, l: nat)
    requires layers >= 2 && Target(m, layers) == Ok(t) && l < layers
    ensures |t.outputs| == 1 + 2 * layers && t.outputs[0] == Ascii("logits")
    ensures t.outputs[1 + 2 * l] == CacheName(l, false) && t.outputs[2 + 2 * l] == CacheName(l, true)
  {
    hide OutputNamesOf, RuntimeNames, CacheName, OutputIndex, Ascii, RenameManifest, ToRefs;
  }

  /** A node that returns a tuple of references to exactly these names. */
  ghost predicate ReturnsTuple(n: Node, names: seq<Text>) {
    && n.inputs == names && n.kwargs == [] && |n.args| == 1 && n.args[0].Tuple? && |n.args[0].elements| == |names|
    && forall i :: 0 <= i < |names| ==> n.args[0].elements[i] == NodeRef(names[i])
  }

  /** Node `o` is the first output node. */
  ghost predicate IsFirstOutput(nodes: seq<Node>, o: int) {
    0 <= o < |nodes| && nodes[o].op == Ascii("output") && forall i :: 0 <= i < o ==> nodes[i].op != Ascii("output")
  }

  /** The first output node of a target graph returns a tuple of the graph's outputs, by position alone. */
  lemma TargetReturns(m: Manifest, layers: nat, t: Manifest, o: int)
    requires layers >= 2 && Target(m, layers) == Ok(t) && IsFirstOutput(t.nodes, o)
    ensures ReturnsTuple(t.nodes[o], t.outputs)
  {
    hide OutputNamesOf, RuntimeNames, StateName, RenameManifest, Ascii, Retained;
    var names := RuntimeNames(m.nodes).value + OutputNamesOf(m.outputs, layers);
    ReplacedOutput(RenameManifest(m, names), Retained(layers), Retained(layers), t, o);
  }

  /** The same after diagnostic outputs were retained, behind what it returned before. */
  lemma RetainReturns(m: Manifest, renamings: seq<Renaming>, t: Manifest, o: int)
    requires renamings != [] && Retain(m, renamings) == Ok(t) && IsFirstOutput(t.nodes, o) && o < |m.nodes|
    ensures ReturnsTuple(t.nodes[o], GetAll(AsMap(renamings), m.nodes[o].inputs) + Targets(renamings))
    ensures t.outputs == GetAll(AsMap(renamings), m.outputs) + Targets(renamings)
  {
    hide Ascii, AsMap, Targets, InNamespace, NamesOf, Distinct;
    var renamed := RenameManifest(m, AsMap(renamings));
    var i := OutputIndex(renamed.nodes, 0).value;
    ReplacedOutput(renamed, renamed.outputs + Targets(renamings), renamed.nodes[i].inputs + Targets(renamings), t, o);
  }

  lemma ReplacedOutput(m: Manifest, outputs: seq<Text>, inputs: seq<Text>, t: Manifest, o: int)
    requires WithOutputs(m, outputs, inputs) == Ok(t) && IsFirstOutput(t.nodes, o)
    ensures ReturnsTuple(t.nodes[o], inputs) && t.outputs == outputs && OutputIndex(m.nodes, 0) == Some(o)
  {
    var i := OutputIndex(m.nodes, 0).value;
    IndexIsFirst(m.nodes, 0);
    hide Ascii, OutputIndex;
    assert t.nodes[i].op == m.nodes[i].op && forall j :: 0 <= j < i ==> t.nodes[j] == m.nodes[j];
    assert o == i;
  }

  lemma {:induction false} IndexIsFirst(nodes: seq<Node>, from: nat)
    requires from <= |nodes| && OutputIndex(nodes, from).Some?
    ensures var i := OutputIndex(nodes, from).value;
            from <= i < |nodes| && nodes[i].op == Ascii("output") && forall j :: from <= j < i ==> nodes[j].op != Ascii("output")
    decreases |nodes| - from
  {
    hide Ascii;
    if nodes[from].op != Ascii("output") {
      IndexIsFirst(nodes, from + 1);
    }
  }

  // ---------------------------------------------------------------------------------------
  // What is accepted
  // ---------------------------------------------------------------------------------------

  lemma {:induction false} OutputIndexExists(nodes: seq<Node>, from: nat)
    requires from <= |nodes|
    ensures OutputIndex(nodes, from).Some? <==> exists i :: from <= i < |nodes| && nodes[i].op == Ascii("output")
    decreases |nodes| - from
  {
    hide Ascii;
    if from < |nodes| {
      OutputIndexExists(nodes, from + 1);
    }
  }

  lemma RenamedHasOutput(nodes: seq<Node>, names: map<Text, Text>)
    ensures OutputIndex(RenameNodes(nodes, names), 0).Some?
       <==> exists i :: 0 <= i < |nodes| && Get(names, nodes[i].op) == Ascii("output")
  {
    OutputIndexExists(RenameNodes(nodes, names), 0);
    hide Ascii, OutputIndex;
    assert forall i :: 0 <= i < |nodes| ==> RenameNodes(nodes, names)[i].op == Get(names, nodes[i].op);
  }

  /**
   A target graph can be made exactly when every runtime input has a name for the target, the outputs are
   the logits, the hidden state and two different ones for each layer, and some node is an output node
   under the new names.
   */
  lemma TargetAccepts(m: Manifest, layers: nat)
    requires layers >= 2
    ensures Target(m, layers).Ok?
       <==> && RuntimeNames(m.nodes).Ok? && |m.outputs| == 2 + 2 * layers
            && (forall i, j :: 2 <= i < j < |m.outputs| ==> m.outputs[i] != m.outputs[j])
            && (forall i :: 2 <= i < |m.outputs| ==> m.outputs[i] != m.outputs[0])
            && exists i :: 0 <= i < |m.nodes|
                           && Get(RuntimeNames(m.nodes).value + OutputNamesOf(m.outputs, layers), m.nodes[i].op) == Ascii("output")
  {
    hide RuntimeNames, OutputNamesOf, RenameNodes, OutputIndex, Ascii, StateName, Retained;
    if RuntimeNames(m.nodes).Ok? && |m.outputs| == 2 + 2 * layers {
      CoveredExactly(m.outputs, layers);
      RenamedHasOutput(m.nodes, RuntimeNames(m.nodes).value + OutputNamesOf(m.outputs, layers));
    }
  }

  /**
   Diagnostic outputs can be retained exactly when their names are different and start with `diagnostic.`,
   none is an output yet, every source is a node, and some node is an output node after renaming.
   */
  lemma RetainAccepts(m: Manifest, renamings: seq<Renaming>)
    requires renamings != []
    ensures Retain(m, renamings).Ok?
       <==> && (forall i, j :: 0 <= i < j < |renamings| ==> renamings[i].to != renamings[j].to)
            && (forall i :: 0 <= i < |renamings| ==>
                  |renamings[i].to| >= 11 && renamings[i].to[..11] == Ascii("diagnostic.") && renamings[i].to !in m.outputs)
            && (forall i :: 0 <= i < |renamings| ==> exists n :: 0 <= n < |m.nodes| && m.nodes[n].name == renamings[i].from)
            && exists n :: 0 <= n < |m.nodes| && Get(AsMap(renamings), m.nodes[n].op) == Ascii("output")
  {
    NamespaceIs(renamings);
    SourcesAre(m.nodes, renamings);
    hide RenameNodes, OutputIndex, Ascii, AsMap, InNamespace, NamesOf;
    RenamedHasOutput(m.nodes, AsMap(renamings));
    assert forall i :: 0 <= i < |renamings| ==> Targets(renamings)[i] == renamings[i].to;
  }

  lemma NamespaceIs(renamings: seq<Renaming>)
    ensures forall i :: 0 <= i < |renamings| ==>
              (InNamespace(renamings[i].to)
               <==> |renamings[i].to| >= 11 && renamings[i].to[..11] == Ascii("diagnostic."))
  {
    assert |Ascii("diagnostic.")| == 11;
    hide Ascii;
  }

  lemma SourcesAre(nodes: seq<Node>, renamings: seq<Renaming>)
    ensures forall i :: 0 <= i < |renamings| ==>
              (renamings[i].from in NamesOf(nodes) <==> exists n :: 0 <= n < |nodes| && nodes[n].name == renamings[i].from)
  {
  }
}
