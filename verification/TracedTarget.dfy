/**
 The target graph of a model traced through the functional cache: the names `target_graph` gives
 capture no read, so every node keeps its value and every layer's state its own name.
 */
module TracedTarget {
  import opened Results
  import opened Utf8
  import opened FxGraph
  import opened GraphNames
  import opened FxSerial
  import opened FxInputs
  import opened TargetGraph
  import opened TargetLaws
  import opened TargetOutputs
  import opened CacheTrace
  import C = CaptureFx

  // ---------------------------------------------------------------------------------------
  // The four named inputs
  // ---------------------------------------------------------------------------------------

  function SourceName(k: nat): Text
    requires k < 4
  {
    if k == 0 then Ascii("l_input_ids_")
    else if k == 1 then Ascii("l_position_ids_")
    else if k == 2 then Ascii("l_full_attention_mask_")
    else Ascii("l_sliding_attention_mask_")
  }

  function InputName(k: nat): Text
    requires k < 4
  {
    if k == 0 then Ascii("input_ids")
    else if k == 1 then Ascii("position_ids")
    else if k == 2 then Ascii("full_attention_mask")
    else Ascii("sliding_attention_mask")
  }

  lemma InputLetters()
    ensures InputName(0)[..1] == Ascii("i") && InputName(1)[..1] == Ascii("p")
    ensures InputName(2)[..1] == Ascii("f") && InputName(3)[..1] == Ascii("s")
    ensures LogitsName()[..1] == Ascii("l")
  {
    assert Ascii("input_ids")[..1] == Ascii("i");
    assert Ascii("position_ids")[..1] == Ascii("p");
    assert Ascii("full_attention_mask")[..1] == Ascii("f");
    assert Ascii("sliding_attention_mask")[..1] == Ascii("s");
    assert Ascii("logits")[..1] == Ascii("l");
  }

  lemma StateLetter(s: nat)
    ensures StateName(s) != [] && StateName(s)[..1] == Ascii("c")
  {
    hide Decimal;
    assert Ascii("cache.layer.")[..1] == Ascii("c");
  }

  lemma Letters()
    ensures Ascii("i")[0] == 105 && Ascii("p")[0] == 112 && Ascii("f")[0] == 102
    ensures Ascii("s")[0] == 115 && Ascii("l")[0] == 108 && Ascii("c")[0] == 99 && Ascii("o")[0] == 111
  {
  }

  // ---------------------------------------------------------------------------------------
  // What a new name says about the value that gets it
  // ---------------------------------------------------------------------------------------

  /** `name` is the semantic name of value `x`: of the logits, of a state on its way in or out, or of an input. */
  datatype Kind = Logits | State(s: nat) | Input(k: nat)

  function NameOf(kind: Kind): Text
    requires kind.Input? ==> kind.k < 4
  {
    match kind
    case Logits => LogitsName()
    case State(s) => StateName(s)
    case Input(k) => InputName(k)
  }

  /** The first letter of a semantic name. */
  function LetterOf(kind: Kind): Text
    requires kind.Input? ==> kind.k < 4
  {
    match kind
    case Logits => Ascii("l")
    case State(_) => Ascii("c")
    case Input(k) => if k == 0 then Ascii("i") else if k == 1 then Ascii("p") else if k == 2 then Ascii("f") else Ascii("s")
  }

  lemma LetterOfName(kind: Kind)
    requires kind.Input? ==> kind.k < 4
    ensures NameOf(kind) != [] && NameOf(kind)[..1] == LetterOf(kind)
  {
    InputLetters();
    hide Ascii;
    if kind.State? {
      StateLetter(kind.s);
    }
    hide StateName, LogitsName;
    if kind.Input? {
      assert kind.k == 0 || kind.k == 1 || kind.k == 2 || kind.k == 3;
    }
    NonEmptyNames();
  }

  lemma NonEmptyNames()
    ensures |InputName(0)| > 0 && |InputName(1)| > 0 && |InputName(2)| > 0 && |InputName(3)| > 0 && |LogitsName()| > 0
  {
    assert |Ascii("input_ids")| > 0 && |Ascii("position_ids")| > 0 && |Ascii("logits")| > 0;
    assert |Ascii("full_attention_mask")| > 0 && |Ascii("sliding_attention_mask")| > 0;
  }

  /** Semantic names of different kinds are different, and none is `output`. */
  lemma NamesTellKinds(a: Kind, b: Kind)
    requires (a.Input? ==> a.k < 4) && (b.Input? ==> b.k < 4)
    ensures NameOf(a) == NameOf(b) <==> a == b
    ensures NameOf(a) != Ascii("output")
  {
    LetterOfName(a);
    LetterOfName(b);
    Letters();
    assert Ascii("output")[..1] == Ascii("o");
    hide NameOf, Ascii;
    assert LetterOf(a) != Ascii("o");
    if a.State? && b.State? {
      SameStateName(a.s, b.s);
    } else if a != b {
      assert LetterOf(a)[0] != LetterOf(b)[0];
    }
  }

  lemma SameStateName(s: nat, r: nat)
    ensures NameOf(State(s)) == NameOf(State(r)) <==> s == r
  {
    StateNamesAreDifferent(s, r);
  }

  // ---------------------------------------------------------------------------------------
  // Traced decode graphs
  // ---------------------------------------------------------------------------------------

  ghost predicate IsNamedInput(name: Text) {
    exists k :: 0 <= k < 4 && name == SourceName(k)
  }

  /**
   A decode graph as the wrapper is traced: the cache states come in under their numbered names, the
   other runtime inputs are the four named ones, and the outputs are ordered by layer, the last two
   layers first (`OutputsAreOrderedExactly` says when they are).
   */
  ghost predicate Traced(m: Manifest, layers: nat, states: seq<Tracing>, steps: seq<Step>, output: Node) {
    && layers >= 2 && IsTrace(states, steps) && Returns(states[|steps|], output)
    && var t := states[|steps|];
       && m.nodes == t.nodes + [output]
       && |t.slots| == |t.origin| == 2 * layers
       && (forall s :: 0 <= s < 2 * layers ==> RuntimeName(t.origin[s]) == Ok(StateName(s)))
       && (forall i :: 0 <= i < |m.nodes| && m.nodes[i].binding.Runtime? ==>
             m.nodes[i].name in t.origin || IsNamedInput(m.nodes[i].name))
       && OrderedByLayer(m.outputs, t.slots, layers)
  }

  /** The renaming `target_graph` performs on these nodes and outputs. */
  ghost predicate Renames(nodes: seq<Node>, outputs: seq<Text>, layers: nat, names: map<Text, Text>) {
    && layers >= 2 && |outputs| == 2 + 2 * layers && DistinctOutputs(outputs, layers)
    && RuntimeNames(nodes).Ok? && names == RuntimeNames(nodes).value + OutputNamesOf(outputs, layers)
  }

  /** `x` is a value of the given kind. */
  ghost predicate IsA(m: Manifest, t: Tracing, x: Text, kind: Kind) {
    match kind
    case Logits => m.outputs != [] && x == m.outputs[0]
    case State(s) => s < |t.slots| == |t.origin| && (x == t.origin[s] || x == t.slots[s])
    case Input(k) => k < 4 && x == SourceName(k)
  }

  /** The renaming gives `x` the name of its kind. */
  ghost predicate NamedByKind(m: Manifest, t: Tracing, names: map<Text, Text>, x: Text) {
    exists kind: Kind :: IsA(m, t, x, kind) && x in names && names[x] == NameOf(kind)
  }

  lemma {:induction false} RuntimeNamesAre(nodes: seq<Node>, x: Text)
    requires RuntimeNames(nodes).Ok? && x in RuntimeNames(nodes).value
    ensures exists i :: 0 <= i < |nodes| && nodes[i].binding.Runtime? && nodes[i].name == x
    ensures RuntimeName(x) == Ok(RuntimeNames(nodes).value[x])
  {
    hide RuntimeName;
    var n := |nodes| - 1;
    if !(nodes[n].binding.Runtime? && nodes[n].name == x) {
      RuntimeNamesAre(nodes[..n], x);
      var i :| 0 <= i < n && nodes[..n][i].binding.Runtime? && nodes[..n][i].name == x;
      assert nodes[i].name == x;
    }
  }

  lemma NamedInput(k: nat)
    requires k < 4
    ensures RuntimeName(SourceName(k)) == Ok(InputName(k))
  {
    hide ParseDecimal, StateName;
    SourcesDiffer();
    hide Ascii;
    assert k == 0 || k == 1 || k == 2 || k == 3;
  }

  lemma SourcesDiffer()
    ensures Ascii("l_position_ids_") != Ascii("l_input_ids_")
    ensures Ascii("l_full_attention_mask_") != Ascii("l_input_ids_")
    ensures Ascii("l_full_attention_mask_") != Ascii("l_position_ids_")
    ensures Ascii("l_sliding_attention_mask_") != Ascii("l_input_ids_")
    ensures Ascii("l_sliding_attention_mask_") != Ascii("l_position_ids_")
    ensures Ascii("l_sliding_attention_mask_") != Ascii("l_full_attention_mask_")
  {
    assert |Ascii("l_input_ids_")| == 12 && |Ascii("l_position_ids_")| == 15;
    assert |Ascii("l_full_attention_mask_")| == 22 && |Ascii("l_sliding_attention_mask_")| == 25;
  }

  lemma RuntimeIsNamedByKind(m: Manifest, layers: nat, states: seq<Tracing>, steps: seq<Step>, output: Node,
                             names: map<Text, Text>, x: Text)
    requires Traced(m, layers, states, steps, output) && Renames(m.nodes, m.outputs, layers, names)
    requires x in RuntimeNames(m.nodes).value && x !in OutputNamesOf(m.outputs, layers)
    ensures NamedByKind(m, states[|steps|], names, x)
  {
    var t := states[|steps|];
    RuntimeNamesAre(m.nodes, x);
    hide RuntimeNames, OutputNamesOf, RuntimeName, StateName, InputName, SourceName, IsTrace, Returns, OrderedByLayer,
         DistinctOutputs;
    assert names[x] == RuntimeNames(m.nodes).value[x];
    if x in t.origin {
      var s :| 0 <= s < |t.origin| && t.origin[s] == x;
      assert IsA(m, t, x, State(s)) && names[x] == NameOf(State(s));
    } else {
      var k :| 0 <= k < 4 && x == SourceName(k);
      NamedInput(k);
      assert IsA(m, t, x, Input(k)) && names[x] == NameOf(Input(k));
    }
  }

  lemma OutputIsNamedByKind(m: Manifest, layers: nat, states: seq<Tracing>, steps: seq<Step>, output: Node,
                            names: map<Text, Text>, x: Text)
    requires Traced(m, layers, states, steps, output) && Renames(m.nodes, m.outputs, layers, names)
    requires x in OutputNamesOf(m.outputs, layers)
    ensures NamedByKind(m, states[|steps|], names, x)
  {
    var t, raw := states[|steps|], m.outputs;
    assert names[x] == OutputNamesOf(raw, layers)[x];
    OutputKey(raw, layers, x);
    hide RuntimeNames, OutputNamesOf, RuntimeName, StateName, IsTrace, Returns, LogitsName;
    if x == raw[0] {
      NameOfLogits(raw, layers);
      assert IsA(m, t, x, Logits) && names[x] == NameOf(Logits);
    } else {
      var i :| 2 <= i < |raw| && x == raw[i];
      var j := i - 2;
      assert x == raw[2 + j];
      NameOfOutput(raw, layers, j);
      var s := StateOfOutput(layers, j);
      assert x == t.slots[s];
      assert IsA(m, t, x, State(s)) && names[x] == NameOf(State(s));
    }
  }

  lemma OutputKey(raw: seq<Text>, layers: nat, x: Text)
    requires layers >= 2 && |raw| == 2 + 2 * layers && x in OutputNamesOf(raw, layers)
    ensures x == raw[0] || exists i :: 2 <= i < |raw| && x == raw[i]
  {
    if x !in raw[2..] {
      ZipOther(map[raw[0] := LogitsName()], raw[2..], OrderedNames(layers), x);
    } else {
      var j :| 0 <= j < |raw[2..]| && raw[2..][j] == x;
      assert x == raw[2 + j];
    }
  }

  /** Two renamed values of one new name are the input and the output of one cache slot. */
  lemma RenamedPairIsACache(m: Manifest, layers: nat, states: seq<Tracing>, steps: seq<Step>, output: Node,
                            names: map<Text, Text>, x: Text, y: Text)
    requires Traced(m, layers, states, steps, output) && Renames(m.nodes, m.outputs, layers, names)
    requires x in names && y in names && x != y && names[x] == names[y]
    ensures var t := states[|steps|]; exists s :: 0 <= s < |t.slots| && {x, y} == {t.origin[s], t.slots[s]}
  {
    var t := states[|steps|];
    hide RuntimeNames, OutputNamesOf, Traced, Renames;
    KindOf(m, layers, states, steps, output, names, x);
    KindOf(m, layers, states, steps, output, names, y);
    var a: Kind :| IsA(m, t, x, a) && names[x] == NameOf(a);
    var b: Kind :| IsA(m, t, y, b) && names[y] == NameOf(b);
    NamesTellKinds(a, b);
    hide NameOf, SourceName;
    assert a == b;
    assert a.State?;
    assert {x, y} == {t.origin[a.s], t.slots[a.s]};
  }

  // ---------------------------------------------------------------------------------------
  // The names capture nothing
  // ---------------------------------------------------------------------------------------

  /** No read is captured between two values one of which keeps the name it was traced with. */
  ghost predicate KeptNamesAreSafe(nodes: seq<Node>, names: map<Text, Text>) {
    forall p, o, i :: 0 <= p < o < i < |nodes| && Get(names, nodes[p].name) == Get(names, nodes[o].name)
                      && (nodes[p].name !in names || nodes[o].name !in names) ==>
      nodes[p].name !in Operands(nodes[i])
  }

  /** That is so when no value that keeps its name has one of the names that are given. */
  lemma FreshNamesAreSafe(nodes: seq<Node>, names: map<Text, Text>)
    requires SingleAssignment(nodes)
    requires forall i :: 0 <= i < |nodes| && nodes[i].name !in names ==> nodes[i].name !in names.Values
    ensures KeptNamesAreSafe(nodes, names)
  {
    hide Operands, SingleAssignment;
    forall p, o | 0 <= p < o < |nodes| && (nodes[p].name !in names || nodes[o].name !in names)
      ensures Get(names, nodes[p].name) != Get(names, nodes[o].name)
    {
      FreshPairDiffers(nodes, names, p, o);
    }
  }

  lemma FreshPairDiffers(nodes: seq<Node>, names: map<Text, Text>, p: nat, o: nat)
    requires SingleAssignment(nodes) && p < o < |nodes| && (nodes[p].name !in names || nodes[o].name !in names)
    requires forall i :: 0 <= i < |nodes| && nodes[i].name !in names ==> nodes[i].name !in names.Values
    ensures Get(names, nodes[p].name) != Get(names, nodes[o].name)
  {
    if nodes[p].name in names {
      assert names[nodes[p].name] in names.Values;
    } else if nodes[o].name in names {
      assert names[nodes[o].name] in names.Values;
    }
  }

  lemma PairIsSafe(m: Manifest, layers: nat, states: seq<Tracing>, steps: seq<Step>, output: Node,
                   names: map<Text, Text>, p: nat, o: nat, i: nat)
    requires Traced(m, layers, states, steps, output) && Renames(m.nodes, m.outputs, layers, names)
    requires p < o < i < |m.nodes| && Get(names, m.nodes[p].name) == Get(names, m.nodes[o].name)
    requires m.nodes[p].name in names && m.nodes[o].name in names
    ensures m.nodes[p].name !in Operands(m.nodes[i])
  {
    var t := states[|steps|];
    TraceKeeps(states, steps, |steps|);
    TracedGraphIsClosed(states, steps, output);
    assert m.nodes[p].name != m.nodes[o].name;
    RenamedPairIsACache(m, layers, states, steps, output, names, m.nodes[p].name, m.nodes[o].name);
    var s :| 0 <= s < |t.slots| && {m.nodes[p].name, m.nodes[o].name} == {t.origin[s], t.slots[s]};
    assert m.nodes[p] == t.nodes[p] && m.nodes[o] == t.nodes[o];
    hide Invariant, Operands, Returns, OrderedByLayer, Renames, IsTrace, RuntimeName, StateName;
    CachePairIsSafe(t, output, s, p, o, i);
  }

  /**
   The names `target_graph` gives a traced decode graph capture no read, exactly when no read is
   captured by a value that keeps the name it was traced with.
   */
  lemma TracedNamesAreSafe(m: Manifest, layers: nat, states: seq<Tracing>, steps: seq<Step>, output: Node,
                           names: map<Text, Text>)
    requires Traced(m, layers, states, steps, output) && Renames(m.nodes, m.outputs, layers, names)
    ensures NoneCaptured(m.nodes, names) <==> KeptNamesAreSafe(m.nodes, names)
  {
    hide Traced, Renames, Operands;
    if KeptNamesAreSafe(m.nodes, names) {
      forall p, o, i | 0 <= p < o < i < |m.nodes| && Get(names, m.nodes[p].name) == Get(names, m.nodes[o].name)
        ensures m.nodes[p].name !in Operands(m.nodes[i])
      {
        if m.nodes[p].name in names && m.nodes[o].name in names {
          PairIsSafe(m, layers, states, steps, output, names, p, o, i);
        }
      }
    }
  }

  // ---------------------------------------------------------------------------------------
  // The bound graph is renamed like the captured one
  // ---------------------------------------------------------------------------------------

  lemma {:induction false} RuntimeNamesOfBound(nodes: seq<Node>, after: seq<Node>, bindings: map<Text, ExternalTensor>)
    requires |after| == |nodes| && forall i :: 0 <= i < |nodes| ==> after[i] == External(nodes[i], bindings)
    ensures RuntimeNames(after) == RuntimeNames(nodes)
  {
    hide RuntimeName;
    if nodes != [] {
      var n := |nodes| - 1;
      RuntimeNamesOfBound(nodes[..n], after[..n], bindings);
    }
  }

  lemma BoundIsUncaptured(nodes: seq<Node>, after: seq<Node>, bindings: map<Text, ExternalTensor>,
                          names: map<Text, Text>)
    requires |after| == |nodes| && forall i :: 0 <= i < |nodes| ==> after[i] == External(nodes[i], bindings)
    requires NoneCaptured(nodes, names)
    ensures NoneCaptured(after, names)
  {
    forall i | 0 <= i < |nodes|
      ensures after[i].name == nodes[i].name && Operands(after[i]) == Operands(nodes[i])
    {
      SameOperands(nodes[i], bindings);
    }
    hide Operands, External;
  }

  /** What an accepted build renames is what it was given, and its renaming that of the captured graph. */
  lemma BuildRenames(captured: C.Captured, bindings: map<Text, ExternalTensor>, layers: nat, target: Manifest,
                     names: map<Text, Text>)
    requires layers >= 2 && BuildTarget(captured, bindings, layers) == Ok(target)
    requires Renames(captured.manifest.nodes, captured.manifest.outputs, layers, names)
    ensures BindExternal(captured, bindings).Ok?
    ensures var before, rebound := captured.manifest, BindExternal(captured, bindings).value.manifest;
            && rebound.outputs == before.outputs && |rebound.nodes| == |before.nodes|
            && (forall i :: 0 <= i < |before.nodes| ==> rebound.nodes[i] == External(before.nodes[i], bindings))
            && ExternalNodes(before.nodes, bindings) == Ok(rebound.nodes)
            && Target(rebound, layers) == Ok(target) && Accepted(rebound, layers) && NamesFor(rebound, layers) == names
  {
    ExternalNodesAre(captured.manifest.nodes, bindings);
    var rebound := BindExternal(captured, bindings).value.manifest;
    hide Target, External, KeysOf, BoundKeys, DistinctTargets;
    RuntimeNamesOfBound(captured.manifest.nodes, rebound.nodes, bindings);
    hide RuntimeNames, OutputNamesOf, DistinctOutputs;
  }

  // ---------------------------------------------------------------------------------------
  // The output node
  // ---------------------------------------------------------------------------------------

  /** As FX has it: the output node comes last, is the only one, and is named by its op; its references are the outputs. */
  ghost predicate EndsInOutput(m: Manifest, output: Node) {
    && m.nodes != [] && output == m.nodes[|m.nodes| - 1]
    && output.name == output.op == Ascii("output") && output.binding.Computed? && output.inputs == m.outputs
    && forall i :: 0 <= i < |m.nodes| - 1 ==> m.nodes[i].op != Ascii("output")
  }

  lemma {:induction false} OutputIndexIs(nodes: seq<Node>, from: nat, last: nat)
    requires from <= last < |nodes| && nodes[last].op == Ascii("output")
    requires forall i :: from <= i < last ==> nodes[i].op != Ascii("output")
    ensures OutputIndex(nodes, from) == Some(last)
    decreases last - from
  {
    if from < last {
      OutputIndexIs(nodes, from + 1, last);
    }
  }

  /** Everything that is renamed is a value of the traced graph or a named input; the output node is neither. */
  lemma OutputKeepsItsName(m: Manifest, layers: nat, states: seq<Tracing>, steps: seq<Step>, output: Node,
                           names: map<Text, Text>)
    requires Traced(m, layers, states, steps, output) && Renames(m.nodes, m.outputs, layers, names)
    requires EndsInOutput(m, output)
    ensures Ascii("output") !in names
    ensures forall x :: x in names ==> names[x] != Ascii("output")
  {
    var t := states[|steps|];
    TraceKeeps(states, steps, |steps|);
    forall x | x in names
      ensures x != Ascii("output") && names[x] != Ascii("output")
    {
      KindOf(m, layers, states, steps, output, names, x);
      var kind: Kind :| IsA(m, t, x, kind) && names[x] == NameOf(kind);
      NamesTellKinds(kind, kind);
      if kind.Input? {
        SourceIsNotOutput(kind.k);
      } else {
        ValueIsNotOutput(m, t, output, x, kind);
      }
    }
  }

  lemma SourceIsNotOutput(k: nat)
    requires k < 4
    ensures SourceName(k) != Ascii("output")
  {
    SourceLengths();
    hide Ascii;
    assert k == 0 || k == 1 || k == 2 || k == 3;
  }

  lemma SourceLengths()
    ensures |Ascii("l_input_ids_")| == 12 && |Ascii("l_position_ids_")| == 15 && |Ascii("output")| == 6
    ensures |Ascii("l_full_attention_mask_")| == 22 && |Ascii("l_sliding_attention_mask_")| == 25
  {
  }

  lemma ValueIsNotOutput(m: Manifest, t: Tracing, output: Node, x: Text, kind: Kind)
    requires Invariant(t) && Returns(t, output) && IsA(m, t, x, kind) && !kind.Input?
    requires output.name == Ascii("output") && output.inputs == m.outputs
    ensures x != Ascii("output")
  {
    hide Ascii, SlotIsPast, NameOf, SourceName, NamesOf;
    if kind.Logits? {
      assert Operands(output)[0] == x;
      if x in t.slots {
        SlotsAreKnown(t, x);
      }
    }
  }

  lemma KindOf(m: Manifest, layers: nat, states: seq<Tracing>, steps: seq<Step>, output: Node, names: map<Text, Text>,
               x: Text)
    requires Traced(m, layers, states, steps, output) && Renames(m.nodes, m.outputs, layers, names) && x in names
    ensures NamedByKind(m, states[|steps|], names, x)
  {
    hide RuntimeNames, OutputNamesOf, Traced;
    if x in OutputNamesOf(m.outputs, layers) {
      OutputIsNamedByKind(m, layers, states, steps, output, names, x);
    } else {
      RuntimeIsNamedByKind(m, layers, states, steps, output, names, x);
    }
  }

  lemma OutputNodeIsLast(captured: C.Captured, bindings: map<Text, ExternalTensor>, layers: nat, target: Manifest,
                         names: map<Text, Text>,
                         states: seq<Tracing>, steps: seq<Step>, output: Node)
    requires Traced(captured.manifest, layers, states, steps, output) && EndsInOutput(captured.manifest, output)
    requires BuildTarget(captured, bindings, layers) == Ok(target)
    requires Renames(captured.manifest.nodes, captured.manifest.outputs, layers, names)
    ensures BindExternal(captured, bindings).Ok? && Accepted(BindExternal(captured, bindings).value.manifest, layers)
    ensures OutputNode(BindExternal(captured, bindings).value.manifest, layers) == |captured.manifest.nodes| - 1
  {
    var m := captured.manifest;
    hide Traced, Renames, Ascii, RuntimeNames, OutputNamesOf, BuildTarget, BindExternal, Target, External, ExternalNodes;
    assert layers >= 2 by {
      RenamesSomething(m, layers, names);
    }
    BuildRenames(captured, bindings, layers, target, names);
    OutputKeepsItsName(m, layers, states, steps, output, names);
    var rebound := BindExternal(captured, bindings).value.manifest;
    RenamedOutputIndex(m.nodes, rebound.nodes, bindings, names);
    hide NamesFor, EndsInOutput;
  }

  lemma RenamesSomething(m: Manifest, layers: nat, names: map<Text, Text>)
    requires Renames(m.nodes, m.outputs, layers, names)
    ensures layers >= 2
  {
    hide RuntimeNames, OutputNamesOf, DistinctOutputs;
  }

  /** Binding leaves the ops and the renaming does not touch the last one, so the search for the output node ends there. */
  lemma RenamedOutputIndex(nodes: seq<Node>, after: seq<Node>, bindings: map<Text, ExternalTensor>,
                           names: map<Text, Text>)
    requires nodes != [] && |after| == |nodes| && forall i :: 0 <= i < |nodes| ==> after[i] == External(nodes[i], bindings)
    requires nodes[|nodes| - 1].op == Ascii("output") && forall i :: 0 <= i < |nodes| - 1 ==> nodes[i].op != Ascii("output")
    requires Ascii("output") !in names && forall x :: x in names ==> names[x] != Ascii("output")
    ensures OutputIndex(RenameNodes(after, names), 0) == Some(|nodes| - 1)
  {
    hide Ascii;
    var renamed := RenameNodes(after, names);
    forall i | 0 <= i < |nodes|
      ensures renamed[i].op == Get(names, nodes[i].op)
    {
      assert after[i] == External(nodes[i], bindings);
    }
    OutputIndexIs(renamed, 0, |nodes| - 1);
  }

  // ---------------------------------------------------------------------------------------
  // The target graph of a traced model
  // ---------------------------------------------------------------------------------------

  /** A build of a traced graph in which no value that keeps its name captures a read. */
  ghost predicate TracedBuild(captured: C.Captured, bindings: map<Text, ExternalTensor>, layers: nat,
                              target: Manifest, names: map<Text, Text>,
                              states: seq<Tracing>, steps: seq<Step>, output: Node)
  {
    && Traced(captured.manifest, layers, states, steps, output) && EndsInOutput(captured.manifest, output)
    && BuildTarget(captured, bindings, layers) == Ok(target)
    && Renames(captured.manifest.nodes, captured.manifest.outputs, layers, names)
    && KeptNamesAreSafe(captured.manifest.nodes, names)
  }

  lemma TracedBuildIsUncaptured(captured: C.Captured, bindings: map<Text, ExternalTensor>, layers: nat,
                                target: Manifest, names: map<Text, Text>,
                                states: seq<Tracing>, steps: seq<Step>, output: Node)
    requires TracedBuild(captured, bindings, layers, target, names, states, steps, output)
    ensures BindExternal(captured, bindings).Ok? && StraightLine(captured.manifest.nodes)
    ensures var rebound := BindExternal(captured, bindings).value.manifest;
            && Target(rebound, layers) == Ok(target) && NamesFor(rebound, layers) == names
            && NoneCaptured(rebound.nodes, names) && StraightLine(rebound.nodes)
            && OutputNode(rebound, layers) == |captured.manifest.nodes| - 1 == |states[|steps|].nodes|
  {
    hide *;
    var m := captured.manifest;
    TracedBuildParts(captured, bindings, layers, target, names, states, steps, output);
    TracedParts(m, layers, states, steps, output);
    BuildRenames(captured, bindings, layers, target, names);
    var rebound := BindExternal(captured, bindings).value.manifest;
    TracedNamesAreSafe(m, layers, states, steps, output, names);
    BoundIsUncaptured(m.nodes, rebound.nodes, bindings, names);
    TracedIsStraightLine(m, states, steps, output);
    ExternalIsStraightLine(m.nodes, rebound.nodes, bindings);
    OutputNodeIsLast(captured, bindings, layers, target, names, states, steps, output);
  }

  lemma TracedBuildParts(captured: C.Captured, bindings: map<Text, ExternalTensor>, layers: nat, target: Manifest,
                         names: map<Text, Text>,
                         states: seq<Tracing>, steps: seq<Step>, output: Node)
    requires TracedBuild(captured, bindings, layers, target, names, states, steps, output)
    ensures layers >= 2 && BuildTarget(captured, bindings, layers) == Ok(target)
    ensures Traced(captured.manifest, layers, states, steps, output) && EndsInOutput(captured.manifest, output)
    ensures Renames(captured.manifest.nodes, captured.manifest.outputs, layers, names)
    ensures KeptNamesAreSafe(captured.manifest.nodes, names)
  {
    hide EndsInOutput, Renames, KeptNamesAreSafe, BuildTarget, IsTrace, Returns, RuntimeName, StateName, OrderedByLayer;
  }

  lemma TracedParts(m: Manifest, layers: nat, states: seq<Tracing>, steps: seq<Step>, output: Node)
    requires Traced(m, layers, states, steps, output)
    ensures IsTrace(states, steps) && |steps| < |states| && Returns(states[|steps|], output)
    ensures m.nodes == states[|steps|].nodes + [output]
  {
    hide Returns, RuntimeName, StateName, OrderedByLayer;
  }

  lemma TracedIsStraightLine(m: Manifest, states: seq<Tracing>, steps: seq<Step>, output: Node)
    requires IsTrace(states, steps) && |steps| < |states| && Returns(states[|steps|], output)
    requires m.nodes == states[|steps|].nodes + [output]
    ensures StraightLine(m.nodes)
  {
    TracedGraphIsClosed(states, steps, output);
    hide Closed, SingleAssignment;
  }

  /**
   Whatever the operations mean, every node of the target graph of a traced model computes what was
   captured, when the external store holds the captured tensors under their new keys and the inputs are
   fed under their semantic names.
   */
  lemma TracedBuildKeepsValues<V>(captured: C.Captured, bindings: map<Text, ExternalTensor>, layers: nat,
                                  target: Manifest, names: map<Text, Text>,
                                  states: seq<Tracing>, steps: seq<Step>, output: Node,
                                  m: Meaning<V>, external: Meaning<V>, renamed: Meaning<V>, i: nat)
    requires TracedBuild(captured, bindings, layers, target, names, states, steps, output)
    requires SameTensors(bindings, m, external)
    requires var rebound := BindExternal(captured, bindings);
             rebound.Ok? && AllClean(rebound.value.manifest.nodes, names) && SameInputs(rebound.value.manifest.nodes, names, external, renamed)
    requires i < |states[|steps|].nodes|
    ensures i < |target.nodes| == |captured.manifest.nodes|
    ensures Value(target.nodes, renamed, i) == Value(captured.manifest.nodes, m, i)
  {
    TracedBuildIsUncaptured(captured, bindings, layers, target, names, states, steps, output);
    hide NoneCaptured, StraightLine, OutputNode, NamesFor, Target, AllClean, SameInputs, SameTensors, Traced, EndsInOutput,
         Renames, KeptNamesAreSafe, BindExternal;
    BuildKeepsValues(captured, bindings, layers, target, m, external, renamed, i);
  }

  /**
   The target graph of a traced model returns the state of every slot under that slot's own name: what
   its output node reads there is what the cache facade ended with.
   */
  lemma TracedStateKeepsItsName(captured: C.Captured, bindings: map<Text, ExternalTensor>, layers: nat,
                                target: Manifest, names: map<Text, Text>,
                                states: seq<Tracing>, steps: seq<Step>, output: Node, s: nat)
    requires TracedBuild(captured, bindings, layers, target, names, states, steps, output) && s < 2 * layers
    ensures var t := states[|steps|];
            var o := |t.nodes|;
            && o < |target.nodes| == |captured.manifest.nodes| && s < |t.slots|
            && StateName(s) in target.outputs && StateName(s) in Operands(target.nodes[o])
            && Resolve(target.nodes, o, StateName(s)) == Resolve(captured.manifest.nodes, o, t.slots[s])
            && Resolve(target.nodes, o, StateName(s)).Some?
  {
    TracedOutputKeepsItsName(captured, bindings, layers, target, names, states, steps, output, 1 + s);
    SlotIsRaw(captured.manifest, layers, states, steps, output, s);
    hide *;
  }

  lemma SlotIsRaw(m: Manifest, layers: nat, states: seq<Tracing>, steps: seq<Step>, output: Node, s: nat)
    requires Traced(m, layers, states, steps, output) && s < 2 * layers
    ensures |m.outputs| == 2 + 2 * layers && s < |states[|steps|].slots| && RawOf(m.outputs, layers, 1 + s) == states[|steps|].slots[s]
  {
    hide RuntimeName, StateName, IsTrace, Returns;
  }

  /** The same for every retained output, the logits among them. */
  lemma TracedOutputKeepsItsName(captured: C.Captured, bindings: map<Text, ExternalTensor>, layers: nat,
                                 target: Manifest, names: map<Text, Text>,
                                 states: seq<Tracing>, steps: seq<Step>, output: Node, k: nat)
    requires TracedBuild(captured, bindings, layers, target, names, states, steps, output) && k < 1 + 2 * layers
    ensures var o := |states[|steps|].nodes|;
            && |captured.manifest.outputs| == 2 + 2 * layers
            && o < |target.nodes| == |captured.manifest.nodes| && k < |target.outputs|
            && target.outputs[k] == (if k == 0 then LogitsName() else StateName(k - 1))
            && target.outputs[k] in Operands(target.nodes[o])
            && Resolve(target.nodes, o, target.outputs[k])
               == Resolve(captured.manifest.nodes, o, RawOf(captured.manifest.outputs, layers, k))
            && Resolve(target.nodes, o, target.outputs[k]).Some?
  {
    BoundOutput(captured, bindings, layers, target, names, states, steps, output, k);
    TracedBuildIsUncaptured(captured, bindings, layers, target, names, states, steps, output);
    hide *;
    TargetNamesOutputs(BindExternal(captured, bindings).value.manifest, layers, target, k);
  }

  /** What the bound graph's output node reads where the captured one's read output `k`. */
  lemma BoundOutput(captured: C.Captured, bindings: map<Text, ExternalTensor>, layers: nat, target: Manifest,
                    names: map<Text, Text>,
                    states: seq<Tracing>, steps: seq<Step>, output: Node, k: nat)
    requires TracedBuild(captured, bindings, layers, target, names, states, steps, output) && k < 1 + 2 * layers
    ensures BindExternal(captured, bindings).Ok?
    ensures var m, rebound := captured.manifest, BindExternal(captured, bindings).value.manifest;
            && |m.outputs| == 2 + 2 * layers && rebound.outputs == m.outputs && |rebound.nodes| == |m.nodes| == |states[|steps|].nodes| + 1
            && var o, raw := |m.nodes| - 1, RawOf(m.outputs, layers, k);
               && raw in Operands(rebound.nodes[o])
               && Resolve(rebound.nodes, o, raw) == Resolve(m.nodes, o, raw) && Resolve(m.nodes, o, raw).Some?
  {
    BuildRenames(captured, bindings, layers, target, names);
    TracedGraphIsClosed(states, steps, output);
    var m, rebound := captured.manifest, BindExternal(captured, bindings).value.manifest;
    hide RawOf, Operands, RuntimeNames, OutputNamesOf, DistinctOutputs, BuildTarget, IsTrace, Returns, RuntimeName,
         StateName, OrderedByLayer, KeptNamesAreSafe;
    ReturnsRaw(m, output, layers, k);
    hide EndsInOutput;
    BoundOutputReads(m.nodes, rebound.nodes, bindings, RawOf(m.outputs, layers, k));
  }

  lemma BoundOutputReads(nodes: seq<Node>, after: seq<Node>, bindings: map<Text, ExternalTensor>, raw: Text)
    requires nodes != [] && |after| == |nodes| && forall i :: 0 <= i < |nodes| ==> after[i] == External(nodes[i], bindings)
    requires StraightLine(nodes) && raw in Operands(nodes[|nodes| - 1])
    ensures raw in Operands(after[|nodes| - 1])
    ensures Resolve(after, |nodes| - 1, raw) == Resolve(nodes, |nodes| - 1, raw) && Resolve(nodes, |nodes| - 1, raw).Some?
  {
    var o := |nodes| - 1;
    SameOperands(nodes[o], bindings);
    OperandIsResolved(nodes, o, raw);
    hide Operands, StraightLine;
    ResolveSameNames(after, nodes, o, raw);
  }

  lemma ReturnsRaw(m: Manifest, output: Node, layers: nat, k: nat)
    requires layers >= 2 && EndsInOutput(m, output) && |m.outputs| == 2 + 2 * layers && k < 1 + 2 * layers
    ensures RawOf(m.outputs, layers, k) in Operands(m.nodes[|m.nodes| - 1])
  {
    var j := if k == 0 then 0 else 2 + OutputOfState(layers, k - 1);
    assert Operands(output)[j] == m.outputs[j];
  }

  // ---------------------------------------------------------------------------------------
  // Which traced models are accepted
  // ---------------------------------------------------------------------------------------

  lemma {:induction false} RuntimeNamesAccept(nodes: seq<Node>)
    requires forall i :: 0 <= i < |nodes| && nodes[i].binding.Runtime? ==> RuntimeName(nodes[i].name).Ok?
    ensures RuntimeNames(nodes).Ok?
  {
    hide RuntimeName;
    if nodes != [] {
      RuntimeNamesAccept(nodes[..|nodes| - 1]);
    }
  }

  /** Every runtime input of a traced graph has a semantic name. */
  lemma TracedInputsAreNamed(m: Manifest, layers: nat, states: seq<Tracing>, steps: seq<Step>, output: Node)
    requires Traced(m, layers, states, steps, output)
    ensures RuntimeNames(m.nodes).Ok? && |m.outputs| == 2 + 2 * layers
  {
    var t := states[|steps|];
    hide RuntimeName, RuntimeNames, IsTrace, Returns, StateName;
    forall i | 0 <= i < |m.nodes| && m.nodes[i].binding.Runtime?
      ensures RuntimeName(m.nodes[i].name).Ok?
    {
      if m.nodes[i].name in t.origin {
        var s :| 0 <= s < |t.origin| && t.origin[s] == m.nodes[i].name;
        assert RuntimeName(t.origin[s]) == Ok(StateName(s));
      } else {
        var k :| 0 <= k < 4 && m.nodes[i].name == SourceName(k);
        NamedInput(k);
      }
    }
    RuntimeNamesAccept(m.nodes);
  }

  /** The outputs of a traced graph are all different exactly when the logits are not a state. */
  lemma TracedOutputsDiffer(m: Manifest, layers: nat, states: seq<Tracing>, steps: seq<Step>, output: Node)
    requires Traced(m, layers, states, steps, output)
    ensures |m.outputs| == 2 + 2 * layers
    ensures DistinctOutputs(m.outputs, layers) <==> m.outputs[0] !in states[|steps|].slots
  {
    var t, raw := states[|steps|], m.outputs;
    TraceSlotsDiffer(states, steps, |steps|);
    hide RuntimeName, IsTrace, Returns, StateName;
    assert forall i {:trigger raw[i]} :: 2 <= i < |raw| ==> raw[i] == t.slots[StateOfOutput(layers, i - 2)] by {
      forall i | 2 <= i < |raw|
        ensures raw[i] == t.slots[StateOfOutput(layers, i - 2)]
      {
        assert raw[2 + (i - 2)] == t.slots[StateOfOutput(layers, i - 2)];
      }
    }
    forall s | 0 <= s < |t.slots|
      ensures t.slots[s] == raw[2 + OutputOfState(layers, s)]
    {
    }
    hide Traced, SlotsDiffer;
    if m.outputs[0] !in t.slots {
      forall i, j | 2 <= i < j < |raw|
        ensures raw[i] != raw[j]
      {
        DifferentStates(t, layers, i - 2, j - 2);
      }
    }
  }

  lemma DifferentStates(t: Tracing, layers: nat, i: nat, j: nat)
    requires layers >= 2 && |t.slots| == 2 * layers && SlotsDiffer(t) && i < j < 2 * layers
    ensures t.slots[StateOfOutput(layers, i)] != t.slots[StateOfOutput(layers, j)]
  {
    assert StateOfOutput(layers, i) != StateOfOutput(layers, j);
  }

  /**
   The build of a traced model succeeds exactly when its weights can be bound and the logits are not a
   cache state; and then the renaming is the one of `TracedBuild`.
   */
  lemma TracedBuildAccepts(captured: C.Captured, bindings: map<Text, ExternalTensor>, layers: nat,
                           states: seq<Tracing>, steps: seq<Step>, output: Node)
    requires Traced(captured.manifest, layers, states, steps, output) && EndsInOutput(captured.manifest, output)
    ensures layers >= 2 && |captured.manifest.outputs| == 2 + 2 * layers && RuntimeNames(captured.manifest.nodes).Ok?
    ensures BuildTarget(captured, bindings, layers).Ok?
        <==> BindExternal(captured, bindings).Ok? && captured.manifest.outputs[0] !in states[|steps|].slots
    ensures BuildTarget(captured, bindings, layers).Ok? ==>
              var names := RuntimeNames(captured.manifest.nodes).value + OutputNamesOf(captured.manifest.outputs, layers);
              Renames(captured.manifest.nodes, captured.manifest.outputs, layers, names)
  {
    var m := captured.manifest;
    assert layers >= 2 by {
      hide IsTrace, Returns, RuntimeName, StateName, OrderedByLayer;
    }
    hide *;
    TracedInputsAreNamed(m, layers, states, steps, output);
    TracedOutputsDiffer(m, layers, states, steps, output);
    var names := RuntimeNames(m.nodes).value + OutputNamesOf(m.outputs, layers);
    BuildNeeds(captured, bindings, layers);
    if DistinctOutputs(m.outputs, layers) {
      NewNames(m.nodes, m.outputs, layers, names);
      if BindExternal(captured, bindings).Ok? {
        OutputKeepsItsName(m, layers, states, steps, output, names);
        LastIsOutput(m, output);
        BuildSucceeds(captured, bindings, layers, names);
      }
    }
  }

  lemma NewNames(nodes: seq<Node>, outputs: seq<Text>, layers: nat, names: map<Text, Text>)
    requires layers >= 2 && |outputs| == 2 + 2 * layers && DistinctOutputs(outputs, layers) && RuntimeNames(nodes).Ok?
    requires names == RuntimeNames(nodes).value + OutputNamesOf(outputs, layers)
    ensures Renames(nodes, outputs, layers, names)
  {
    hide RuntimeNames, OutputNamesOf, DistinctOutputs;
  }

  lemma LastIsOutput(m: Manifest, output: Node)
    requires EndsInOutput(m, output)
    ensures m.nodes != [] && m.nodes[|m.nodes| - 1].op == Ascii("output")
    ensures forall i :: 0 <= i < |m.nodes| - 1 ==> m.nodes[i].op != Ascii("output")
  {
    hide Ascii;
  }

  lemma BuildNeeds(captured: C.Captured, bindings: map<Text, ExternalTensor>, layers: nat)
    requires layers >= 2 && |captured.manifest.outputs| == 2 + 2 * layers
    ensures BuildTarget(captured, bindings, layers).Ok? ==>
              BindExternal(captured, bindings).Ok? && DistinctOutputs(captured.manifest.outputs, layers)
  {
    CoveredExactly(captured.manifest.outputs, layers);
    hide ExternalNodes, DistinctOutputs, OutputNamesOf, RuntimeNames, StateName, WithOutputs, RenameManifest, KeysOf,
         BoundKeys;
  }

  lemma BuildSucceeds(captured: C.Captured, bindings: map<Text, ExternalTensor>, layers: nat, names: map<Text, Text>)
    requires layers >= 2 && |captured.manifest.outputs| == 2 + 2 * layers && DistinctOutputs(captured.manifest.outputs, layers)
    requires BindExternal(captured, bindings).Ok? && RuntimeNames(captured.manifest.nodes).Ok?
    requires names == RuntimeNames(captured.manifest.nodes).value + OutputNamesOf(captured.manifest.outputs, layers)
    requires Ascii("output") !in names && forall x :: x in names ==> names[x] != Ascii("output")
    requires var nodes := captured.manifest.nodes;
             nodes != [] && nodes[|nodes| - 1].op == Ascii("output") && forall i :: 0 <= i < |nodes| - 1 ==> nodes[i].op != Ascii("output")
    ensures BuildTarget(captured, bindings, layers).Ok?
  {
    var nodes, rebound := captured.manifest.nodes, BindExternal(captured, bindings).value.manifest;
    CoveredExactly(captured.manifest.outputs, layers);
    hide Ascii, DistinctOutputs, OutputNamesOf, RuntimeNames, StateName, KeysOf, BoundKeys, External;
    ExternalNodesAre(nodes, bindings);
    RuntimeNamesOfBound(nodes, rebound.nodes, bindings);
    RenamedOutputIndex(nodes, rebound.nodes, bindings, names);
    hide ExternalNodes, RenameNodes;
  }
}
