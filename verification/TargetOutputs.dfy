/** The target graph computes what was captured, and every output carries its own layer's name. */
module TargetOutputs {
  import opened Results
  import opened Utf8
  import opened FxGraph
  import opened GraphNames
  import opened FxSerial
  import opened FxInputs
  import opened TargetGraph
  import C = CaptureFx
  import opened TargetLaws

  // ---------------------------------------------------------------------------------------
  // What the target graph is
  // ---------------------------------------------------------------------------------------

  ghost predicate Accepted(m: Manifest, layers: nat)
    requires layers >= 2
  {
    Target(m, layers).Ok?
  }

  /** The renaming an accepted graph went through. */
  function NamesFor(m: Manifest, layers: nat): map<Text, Text>
    requires layers >= 2 && Accepted(m, layers)
  {
    RuntimeNames(m.nodes).value + OutputNamesOf(m.outputs, layers)
  }

  function OutputNode(m: Manifest, layers: nat): (o: nat)
    requires layers >= 2 && Accepted(m, layers)
    ensures o < |m.nodes|
  {
    OutputIndex(RenameNodes(m.nodes, NamesFor(m, layers)), 0).value
  }

  /** Only the output node is more than renamed, and it keeps its name. */
  lemma TargetShape(m: Manifest, layers: nat, t: Manifest)
    requires layers >= 2 && Target(m, layers) == Ok(t)
    ensures var names, o := NamesFor(m, layers), OutputNode(m, layers);
            && |m.outputs| == 2 + 2 * layers && DistinctOutputs(m.outputs, layers)
            && |t.nodes| == |m.nodes| && t.outputs == Retained(layers)
            && (forall i :: 0 <= i < |m.nodes| && i != o ==> t.nodes[i] == RenameNode(m.nodes[i], names))
            && t.nodes[o].name == Get(names, m.nodes[o].name)
            && Operands(t.nodes[o]) == Retained(layers) + Retained(layers)
  {
    hide OutputNamesOf, RuntimeNames, DistinctOutputs, Retained, RenameNode, StateName, OutputIndex;
    CoveredExactly(m.outputs, layers);
    assert Covered(m.outputs, layers);
    var names, o := NamesFor(m, layers), OutputNode(m, layers);
    RenamedName(m.nodes[o], names);
    RefsOfRefs(Retained(layers));
    assert RefsOfFields([]) == [];
    assert t.nodes[o].args == [Tuple(ToRefs(Retained(layers)))];
    OneTuple(ToRefs(Retained(layers)));
    assert t.nodes[o].inputs == Retained(layers) && t.nodes[o].kwargs == [];
    assert Retained(layers) + Retained(layers) + [] == Retained(layers) + Retained(layers);
  }

  lemma RenamedName(n: Node, names: map<Text, Text>)
    ensures RenameNode(n, names).name == Get(names, n.name)
  {
  }

  lemma OneTuple(elements: seq<Argument>)
    ensures RefsOfAll([Tuple(elements)]) == RefsOfAll(elements)
  {
    assert [Tuple(elements)][1..] == [];
    assert RefsOfAll(elements) + [] == RefsOfAll(elements);
  }

  lemma {:induction false} RefsOfRefs(names: seq<Text>)
    ensures RefsOfAll(ToRefs(names)) == names
  {
    if names != [] {
      RefsOfRefs(names[1..]);
      assert ToRefs(names)[1..] == ToRefs(names[1..]);
      assert ToRefs(names)[0] == NodeRef(names[0]);
    }
  }

  // ---------------------------------------------------------------------------------------
  // Nothing that a node computes is changed
  // ---------------------------------------------------------------------------------------

  lemma {:induction false} ValueOfPrefix<V>(a: seq<Node>, b: seq<Node>, m: Meaning<V>, n: nat, i: nat)
    requires i < n <= |a| && n <= |b| && forall j :: 0 <= j < n ==> a[j] == b[j]
    ensures Value(a, m, i) == Value(b, m, i)
    decreases i, 1, 0
  {
    if a[i].binding.Computed? {
      OperandsOfPrefix(a, b, m, n, i, Operands(a[i]));
    }
  }

  lemma {:induction false} OperandsOfPrefix<V>(a: seq<Node>, b: seq<Node>, m: Meaning<V>, n: nat, i: nat,
                                               operands: seq<Text>)
    requires i <= n <= |a| && n <= |b| && forall j :: 0 <= j < n ==> a[j] == b[j]
    ensures ValuesOf(a, m, i, operands) == ValuesOf(b, m, i, operands)
    decreases i, 0, |operands|
  {
    if operands != [] {
      ResolveSameNames(a, b, i, operands[0]);
      var r := Resolve(a, i, operands[0]);
      if r.Some? {
        ValueOfPrefix(a, b, m, n, r.value);
      }
      OperandsOfPrefix(a, b, m, n, i, operands[1..]);
    }
  }

  /** A captured graph: named once, defined before use. */
  ghost predicate StraightLine(nodes: seq<Node>) {
    SingleAssignment(nodes) && Closed(nodes)
  }

  /**
   When no read is captured, every node before the output node of the target graph computes what it
   computed as captured, with the inputs fed under their semantic names.
   */
  lemma TargetKeepsValues<V>(m: Manifest, layers: nat, t: Manifest, meaning: Meaning<V>, renamed: Meaning<V>, i: nat)
    requires layers >= 2 && Target(m, layers) == Ok(t) && StraightLine(m.nodes)
    requires NoneCaptured(m.nodes, NamesFor(m, layers)) && AllClean(m.nodes, NamesFor(m, layers))
    requires SameInputs(m.nodes, NamesFor(m, layers), meaning, renamed) && i < OutputNode(m, layers)
    ensures |t.nodes| == |m.nodes| && Value(t.nodes, renamed, i) == Value(m.nodes, meaning, i)
  {
    var names := NamesFor(m, layers);
    TargetShape(m, layers, t);
    hide Target, NamesFor, OutputNode, Retained, DistinctOutputs, RenameNode, NoneCaptured;
    RenamingKeepsDataflow(m.nodes, names);
    RenamingKeepsValues(m.nodes, names, meaning, renamed, i);
    var n := OutputNode(m, layers);
    assert forall j :: 0 <= j < n ==> t.nodes[j] == RenameNodes(m.nodes, names)[j];
    ValueOfPrefix(t.nodes, RenameNodes(m.nodes, names), renamed, n, i);
  }

  lemma ExternalIsStraightLine(nodes: seq<Node>, after: seq<Node>, bindings: map<Text, ExternalTensor>)
    requires ExternalNodes(nodes, bindings) == Ok(after) && StraightLine(nodes)
    ensures |after| == |nodes| && StraightLine(after)
  {
    ExternalNodesAre(nodes, bindings);
    hide ExternalNodes, Operands;
    assert forall i :: 0 <= i < |nodes| ==> after[i].name == nodes[i].name;
    forall i, k | 0 <= i < |after| && 0 <= k < |Operands(after[i])|
      ensures Resolve(after, i, Operands(after[i])[k]).Some?
    {
      SameOperands(nodes[i], bindings);
      ResolveSameNames(after, nodes, i, Operands(nodes[i])[k]);
    }
  }

  lemma SameOperands(n: Node, bindings: map<Text, ExternalTensor>)
    ensures Operands(External(n, bindings)) == Operands(n)
  {
  }

  /**
   The whole build: bound into an external store that holds the captured tensors under their new keys,
   and fed its inputs under their semantic names, the target graph computes at every node what was captured.
   */
  lemma BuildKeepsValues<V>(captured: C.Captured, bindings: map<Text, ExternalTensor>, layers: nat, t: Manifest,
                            m: Meaning<V>, external: Meaning<V>, renamed: Meaning<V>, i: nat)
    requires layers >= 2 && BuildTarget(captured, bindings, layers) == Ok(t) && StraightLine(captured.manifest.nodes)
    requires SameTensors(bindings, m, external)
    requires var rebound := BindExternal(captured, bindings).value.manifest;
             && NoneCaptured(rebound.nodes, NamesFor(rebound, layers)) && AllClean(rebound.nodes, NamesFor(rebound, layers))
             && SameInputs(rebound.nodes, NamesFor(rebound, layers), external, renamed) && i < OutputNode(rebound, layers)
    ensures i < |t.nodes| == |captured.manifest.nodes|
    ensures Value(t.nodes, renamed, i) == Value(captured.manifest.nodes, m, i)
  {
    var rebound := BindExternal(captured, bindings).value.manifest;
    ExternalIsStraightLine(captured.manifest.nodes, rebound.nodes, bindings);
    hide Target, NamesFor, OutputNode, NoneCaptured, AllClean, SameInputs, StraightLine, SameTensors, ExternalNodes;
    TargetKeepsValues(rebound, layers, t, external, renamed, i);
    ExternalKeepsValues(captured.manifest.nodes, rebound.nodes, bindings, m, external, i);
  }

  // ---------------------------------------------------------------------------------------
  // Every output is the captured one
  // ---------------------------------------------------------------------------------------

  /** The captured output that retained output `k` stands for. */
  function RawOf(raw: seq<Text>, layers: nat, k: nat): Text
    requires layers >= 2 && |raw| == 2 + 2 * layers && k < 1 + 2 * layers
  {
    if k == 0 then raw[0] else raw[2 + OutputOfState(layers, k - 1)]
  }

  lemma RetainedName(m: Manifest, layers: nat, k: nat)
    requires layers >= 2 && Accepted(m, layers) && |m.outputs| == 2 + 2 * layers && DistinctOutputs(m.outputs, layers)
    requires k < 1 + 2 * layers
    ensures k < |Retained(layers)| && Get(NamesFor(m, layers), RawOf(m.outputs, layers, k)) == Retained(layers)[k]
  {
    hide OutputNamesOf, RuntimeNames, StateName, Accepted, DistinctOutputs;
    if k == 0 {
      NameOfLogits(m.outputs, layers);
    } else {
      NameOfOutput(m.outputs, layers, OutputOfState(layers, k - 1));
    }
  }

  /**
   The retained names are `logits` and the caches in layer order, and what the output node reads under
   the name of state `s` is the captured output for that state.
   */
  lemma TargetNamesOutputs(m: Manifest, layers: nat, t: Manifest, k: nat)
    requires layers >= 2 && Target(m, layers) == Ok(t) && StraightLine(m.nodes)
    requires NoneCaptured(m.nodes, NamesFor(m, layers))
    requires |m.outputs| == 2 + 2 * layers && k < 1 + 2 * layers
    requires RawOf(m.outputs, layers, k) in Operands(m.nodes[OutputNode(m, layers)])
    ensures var o := OutputNode(m, layers);
            && |t.nodes| == |m.nodes| && t.outputs == Retained(layers) && k < |t.outputs|
            && t.outputs[k] == (if k == 0 then LogitsName() else StateName(k - 1))
            && t.outputs[k] in Operands(t.nodes[o])
            && Resolve(t.nodes, o, t.outputs[k]) == Resolve(m.nodes, o, RawOf(m.outputs, layers, k))
  {
    var names, o, raw := NamesFor(m, layers), OutputNode(m, layers), RawOf(m.outputs, layers, k);
    TargetShape(m, layers, t);
    TargetPrefix(m, layers, t);
    RetainedName(m, layers, k);
    hide Target, NamesFor, OutputNode, DistinctOutputs, RawOf, StateName, LogitsName, NoneCaptured, RenameNodes,
         Operands, RenameNode, Closed, SingleAssignment;
    RenamingKeepsDataflow(m.nodes, names);
    hide DataflowKept;
    KeptInTarget(m.nodes, t.nodes, names, o, raw);
  }

  lemma TargetPrefix(m: Manifest, layers: nat, t: Manifest)
    requires layers >= 2 && Target(m, layers) == Ok(t)
    ensures |t.nodes| == |m.nodes|
    ensures forall j :: 0 <= j < OutputNode(m, layers) ==> t.nodes[j].name == Get(NamesFor(m, layers), m.nodes[j].name)
  {
    TargetShape(m, layers, t);
    hide Target, NamesFor, OutputNode, DistinctOutputs, Retained, Operands;
  }

  lemma KeptInTarget(nodes: seq<Node>, target: seq<Node>, names: map<Text, Text>, i: nat, operand: Text)
    requires DataflowKept(nodes, names) && i < |nodes| == |target| && operand in Operands(nodes[i])
    requires forall j :: 0 <= j < i ==> target[j].name == Get(names, nodes[j].name)
    ensures Resolve(target, i, Get(names, operand)) == Resolve(nodes, i, operand)
  {
    KeptOperand(nodes, names, i, operand);
    hide Operands, DataflowKept;
    assert forall j :: 0 <= j < i ==> RenameNodes(nodes, names)[j].name == Get(names, nodes[j].name);
    ResolveSameNames(target, RenameNodes(nodes, names), i, Get(names, operand));
  }

  lemma KeptOperand(nodes: seq<Node>, names: map<Text, Text>, i: nat, operand: Text)
    requires DataflowKept(nodes, names) && i < |nodes| && operand in Operands(nodes[i])
    ensures Resolve(RenameNodes(nodes, names), i, Get(names, operand)) == Resolve(nodes, i, operand)
  {
    hide RenameNodes, Operands;
    var k :| 0 <= k < |Operands(nodes[i])| && Operands(nodes[i])[k] == operand;
  }

  // ---------------------------------------------------------------------------------------
  // The outputs of the traced wrapper
  // ---------------------------------------------------------------------------------------

  /** What the wrapper returns: logits, hidden, the shared full and sliding states, the cache's state. */
  function WrapperOutputs(logits: Text, hidden: Text, shared: seq<Text>, state: seq<Text>): seq<Text> {
    [logits, hidden] + shared + state
  }

  ghost predicate DistinctValues(logits: Text, hidden: Text, shared: seq<Text>, state: seq<Text>) {
    && logits != hidden && logits !in state && hidden !in state && Distinct(state)
    && Distinct(shared) && logits !in shared && hidden !in shared
  }

  /** The states of the last two layers, last layer first. */
  function LastTwo(state: seq<Text>, layers: nat): (r: seq<Text>)
    requires layers >= 2 && |state| == 2 * layers
    ensures |r| == 4 && forall j :: 0 <= j < 4 ==> r[j] == state[StateOfOutput(layers, j)]
  {
    [state[2 * layers - 2], state[2 * layers - 1], state[2 * layers - 4], state[2 * layers - 3]]
  }

  lemma UniquePrefix(logits: Text, hidden: Text, shared: seq<Text>, state: seq<Text>)
    requires DistinctValues(logits, hidden, shared, state)
    ensures Unique([logits, hidden] + shared) == [logits, hidden] + shared
  {
    var pair := [logits, hidden];
    hide Unique;
    assert [] + pair == pair && [] + pair == [] + ([logits] + [hidden]);
    UniqueEmpty();
    UniqueAppend([], pair);
    UniqueAppend(pair, shared);
  }

  lemma UniqueEmpty()
    ensures Unique([]) == []
  {
  }

  /** The shared states being those of the last two layers, deduplication leaves the other layers in order. */
  lemma WrapperOrder(logits: Text, hidden: Text, state: seq<Text>, layers: nat)
    requires layers >= 2 && |state| == 2 * layers && DistinctValues(logits, hidden, LastTwo(state, layers), state)
    ensures Unique(WrapperOutputs(logits, hidden, LastTwo(state, layers), state))
         == [logits, hidden] + LastTwo(state, layers) + state[..2 * layers - 4]
  {
    var shared := LastTwo(state, layers);
    var first, others, last := [logits, hidden] + shared, state[..2 * layers - 4], state[2 * layers - 4..];
    UniquePrefix(logits, hidden, shared, state);
    OthersAreNew(logits, hidden, state, layers);
    LastAreSeen(logits, hidden, state, layers);
    hide Unique, LastTwo, DistinctValues;
    UniqueAppend(first, others);
    UniqueRepeat(first + others, last);
    Appended(first, others, last, state);
  }

  lemma Appended(a: seq<Text>, b: seq<Text>, c: seq<Text>, all: seq<Text>)
    requires |b| <= |all| && b == all[..|b|] && c == all[|b|..]
    ensures a + all == (a + b) + c
  {
  }

  lemma OthersAreNew(logits: Text, hidden: Text, state: seq<Text>, layers: nat)
    requires layers >= 2 && |state| == 2 * layers && DistinctValues(logits, hidden, LastTwo(state, layers), state)
    ensures var first, others := [logits, hidden] + LastTwo(state, layers), state[..2 * layers - 4];
            && (forall i :: 0 <= i < |others| ==> others[i] !in first)
            && (forall i, j :: 0 <= i < j < |others| ==> others[i] != others[j])
  {
    var first, others := [logits, hidden] + LastTwo(state, layers), state[..2 * layers - 4];
    forall i | 0 <= i < |others|
      ensures others[i] !in first
    {
      assert others[i] == state[i] && state[i] in state;
      assert forall j :: 2 * layers - 4 <= j < 2 * layers ==> state[j] != state[i];
    }
  }

  lemma LastAreSeen(logits: Text, hidden: Text, state: seq<Text>, layers: nat)
    requires layers >= 2 && |state| == 2 * layers
    ensures var last := state[2 * layers - 4..];
            forall i :: 0 <= i < |last| ==> last[i] in ([logits, hidden] + LastTwo(state, layers)) + state[..2 * layers - 4]
  {
    var last, shared := state[2 * layers - 4..], LastTwo(state, layers);
    forall i | 0 <= i < |last|
      ensures last[i] in ([logits, hidden] + shared) + state[..2 * layers - 4]
    {
      assert last[i] == state[2 * layers - 4 + i];
      assert shared[if i < 2 then i + 2 else i - 2] == last[i];
      assert last[i] in shared;
    }
  }

  ghost predicate OrderedByLayer(raw: seq<Text>, state: seq<Text>, layers: nat)
    requires layers >= 2 && |state| == 2 * layers
  {
    |raw| == 2 + 2 * layers && forall j :: 0 <= j < 2 * layers ==> raw[2 + j] == state[StateOfOutput(layers, j)]
  }

  /**
   The captured outputs come in the order `target_graph` names them in exactly when the shared states
   are the last layer's (full attention) and the one's before it (sliding attention).
   */
  lemma OutputsAreOrderedExactly(logits: Text, hidden: Text, shared: seq<Text>, state: seq<Text>, layers: nat)
    requires layers >= 2 && |state| == 2 * layers && |shared| == 4 && DistinctValues(logits, hidden, shared, state)
    ensures OrderedByLayer(Unique(WrapperOutputs(logits, hidden, shared, state)), state, layers)
        <==> shared == LastTwo(state, layers)
  {
    var raw := Unique(WrapperOutputs(logits, hidden, shared, state));
    if shared == LastTwo(state, layers) {
      WrapperOrder(logits, hidden, state, layers);
      forall j | 0 <= j < 2 * layers
        ensures raw[2 + j] == state[StateOfOutput(layers, j)]
      {
        if j >= 4 {
          assert raw[2 + j] == state[..2 * layers - 4][j - 4];
        }
      }
    }
    if OrderedByLayer(raw, state, layers) {
      UniquePrefix(logits, hidden, shared, state);
      hide Unique;
      UniqueExtends([logits, hidden] + shared, state);
      assert WrapperOutputs(logits, hidden, shared, state) == ([logits, hidden] + shared) + state;
      forall j | 0 <= j < 4
        ensures shared[j] == LastTwo(state, layers)[j]
      {
        assert raw[2 + j] == ([logits, hidden] + shared)[2 + j];
      }
      assert shared == LastTwo(state, layers);
    }
  }

  lemma {:induction false} UniqueExtends(values: seq<Text>, more: seq<Text>)
    ensures |Unique(values)| <= |Unique(values + more)| && Unique(values + more)[..|Unique(values)|] == Unique(values)
  {
    hide Unique;
    if more == [] {
      assert values + more == values;
    } else {
      var n := |more| - 1;
      UniqueExtends(values, more[..n]);
      assert values + more == (values + more[..n]) + [more[n]];
      UniqueSnoc(values + more[..n], more[n]);
    }
  }

  /**
   The whole way from the wrapper to the engine: state `s` of the cache leaves the target graph under
   the name `cache.layer.<s / 2>.key` or `.value`.
   */
  lemma EveryLayerKeepsItsName(m: Manifest, layers: nat, t: Manifest, logits: Text, hidden: Text, state: seq<Text>,
                               s: nat)
    requires layers >= 2 && |state| == 2 * layers && s < 2 * layers
    requires DistinctValues(logits, hidden, LastTwo(state, layers), state)
    requires m.outputs == Unique(WrapperOutputs(logits, hidden, LastTwo(state, layers), state))
    requires Target(m, layers) == Ok(t) && StraightLine(m.nodes) && NoneCaptured(m.nodes, NamesFor(m, layers))
    requires state[s] in Operands(m.nodes[OutputNode(m, layers)])
    ensures var o := OutputNode(m, layers);
            && |t.nodes| == |m.nodes| && StateName(s) in Operands(t.nodes[o]) && StateName(s) in t.outputs
            && Resolve(t.nodes, o, StateName(s)) == Resolve(m.nodes, o, state[s])
  {
    hide *;
    OutputsAreOrderedExactly(logits, hidden, LastTwo(state, layers), state, layers);
    RawIsState(m.outputs, state, layers, s);
    TargetNamesOutputs(m, layers, t, 1 + s);
  }

  lemma RawIsState(raw: seq<Text>, state: seq<Text>, layers: nat, s: nat)
    requires layers >= 2 && |state| == 2 * layers && OrderedByLayer(raw, state, layers) && s < 2 * layers
    ensures |raw| == 2 + 2 * layers && RawOf(raw, layers, 1 + s) == state[s]
  {
    hide StateName;
  }

  // ---------------------------------------------------------------------------------------
  // Diagnostic outputs
  // ---------------------------------------------------------------------------------------

  /** Different values get different new names. */
  ghost predicate InjectiveOn(nodes: seq<Node>, names: map<Text, Text>) {
    forall i, j :: 0 <= i < |nodes| && 0 <= j < |nodes| && Get(names, nodes[i].name) == Get(names, nodes[j].name) ==>
      nodes[i].name == nodes[j].name
  }

  /** A renaming that keeps different names different keeps the dataflow, even where names are shared. */
  lemma InjectiveKeepsDataflow(nodes: seq<Node>, names: map<Text, Text>)
    requires Closed(nodes) && InjectiveOn(nodes, names)
    ensures DataflowKept(nodes, names)
  {
    forall i, k | 0 <= i < |nodes| && 0 <= k < |Operands(nodes[i])|
      ensures Resolve(RenameNodes(nodes, names), i, Get(names, Operands(nodes[i])[k])) == Resolve(nodes, i, Operands(nodes[i])[k])
    {
      var p := Resolve(nodes, i, Operands(nodes[i])[k]).value;
      ResolveRenamed(nodes, names, i, p);
    }
  }

  lemma RetainedSource(renamings: seq<Renaming>, i: nat)
    requires Distinct(Sources(renamings)) && i < |renamings|
    ensures renamings[i].from in AsMap(renamings) && AsMap(renamings)[renamings[i].from] == renamings[i].to
  {
    assert Sources(renamings)[i] == renamings[i].from;
    var j := ZipLast(map[], Sources(renamings), Targets(renamings), renamings[i].from);
    assert j == i;
  }

  lemma RetainedSourceOf(renamings: seq<Renaming>, name: Text) returns (i: nat)
    requires Distinct(Sources(renamings)) && name in AsMap(renamings)
    ensures i < |renamings| && renamings[i].from == name && AsMap(renamings)[name] == renamings[i].to
  {
    if name !in Sources(renamings) {
      ZipOther(map[], Sources(renamings), Targets(renamings), name);
    }
    i := ZipLast(map[], Sources(renamings), Targets(renamings), name);
  }

  lemma FreshIsInjective(nodes: seq<Node>, renamings: seq<Renaming>)
    requires Distinct(Sources(renamings)) && Distinct(Targets(renamings))
    requires forall i :: 0 <= i < |renamings| ==> renamings[i].to !in NamesOf(nodes)
    ensures InjectiveOn(nodes, AsMap(renamings))
  {
    var names := AsMap(renamings);
    hide AsMap, Sources;
    forall i, j | 0 <= i < |nodes| && 0 <= j < |nodes| && Get(names, nodes[i].name) == Get(names, nodes[j].name)
      ensures nodes[i].name == nodes[j].name
    {
      assert nodes[i].name in NamesOf(nodes) && nodes[j].name in NamesOf(nodes);
      if nodes[i].name in names {
        var a := RetainedSourceOf(renamings, nodes[i].name);
        if nodes[j].name in names {
          var b := RetainedSourceOf(renamings, nodes[j].name);
          assert Targets(renamings)[a] == Targets(renamings)[b];
        }
      } else if nodes[j].name in names {
        var b := RetainedSourceOf(renamings, nodes[j].name);
      }
    }
  }

  /**
   Retaining diagnostic outputs keeps every operand's definition when the diagnostic names are not yet
   taken by a node, and the new outputs are exactly the old ones renamed and then the diagnostic ones.
   */
  lemma RetainKeepsDataflow(m: Manifest, renamings: seq<Renaming>, t: Manifest)
    requires Distinct(Sources(renamings)) && Closed(m.nodes) && Retain(m, renamings) == Ok(t) && renamings != []
    requires forall i :: 0 <= i < |renamings| ==> renamings[i].to !in NamesOf(m.nodes)
    ensures DataflowKept(m.nodes, AsMap(renamings))
    ensures t.outputs == GetAll(AsMap(renamings), m.outputs) + Targets(renamings)
    ensures forall i :: 0 <= i < |renamings| ==> Get(AsMap(renamings), renamings[i].from) == renamings[i].to
  {
    FreshIsInjective(m.nodes, renamings);
    InjectiveKeepsDataflow(m.nodes, AsMap(renamings));
    hide DataflowKept, InjectiveOn, Closed, AsMap;
    forall i | 0 <= i < |renamings|
      ensures Get(AsMap(renamings), renamings[i].from) == renamings[i].to
    {
      RetainedSource(renamings, i);
    }
  }

  /** An injective renaming leads every name that some node has to the same node as before. */
  lemma ResolveInjective(nodes: seq<Node>, names: map<Text, Text>, i: nat, name: Text)
    requires InjectiveOn(nodes, names) && i <= |nodes| && name in NamesOf(nodes)
    ensures Resolve(RenameNodes(nodes, names), i, Get(names, name)) == Resolve(nodes, i, name)
  {
    var after := RenameNodes(nodes, names);
    var k :| 0 <= k < |nodes| && nodes[k].name == name;
    var r := Resolve(nodes, i, name);
    forall j | 0 <= j < i
      ensures after[j].name == Get(names, name) <==> nodes[j].name == name
    {
      assert after[j].name == Get(names, nodes[j].name);
      assert Get(names, nodes[j].name) == Get(names, nodes[k].name) ==> nodes[j].name == nodes[k].name;
    }
    hide RenameNodes, InjectiveOn, Get, NamesOf;
    SameResolution(nodes, after, i, name, Get(names, name));
  }

  /** Two names that the same nodes have resolve to the same node. */
  lemma {:induction false} SameResolution(nodes: seq<Node>, after: seq<Node>, i: nat, name: Text, name': Text)
    requires |after| == |nodes| && i <= |nodes|
    requires forall j :: 0 <= j < i ==> (after[j].name == name' <==> nodes[j].name == name)
    ensures Resolve(after, i, name') == Resolve(nodes, i, name)
  {
    if i > 0 {
      SameResolution(nodes, after, i - 1, name, name');
    }
  }

  /** The output node of a manifest in which diagnostic outputs are retained. */
  function RetainIndex(m: Manifest, renamings: seq<Renaming>): (o: nat)
    requires renamings != [] && Retain(m, renamings).Ok?
    ensures o < |m.nodes|
  {
    OutputIndex(RenameNodes(m.nodes, AsMap(renamings)), 0).value
  }

  lemma RetainShape(m: Manifest, renamings: seq<Renaming>, t: Manifest)
    requires renamings != [] && Retain(m, renamings) == Ok(t)
    ensures var names, o := AsMap(renamings), RetainIndex(m, renamings);
            && |t.nodes| == |m.nodes| && (forall i :: 0 <= i < |m.nodes| && i != o ==> t.nodes[i] == RenameNode(m.nodes[i], names))
            && t.nodes[o].name == Get(names, m.nodes[o].name)
            && t.nodes[o].inputs == GetAll(names, m.nodes[o].inputs) + Targets(renamings)
            && (forall i :: 0 <= i < |renamings| ==> renamings[i].from in NamesOf(m.nodes))
  {
    var o := RetainIndex(m, renamings);
    RenamedName(m.nodes[o], AsMap(renamings));
    hide AsMap, NamesOf, OutputIndex, InNamespace;
  }

  /**
   What the output node reads under a retained name is the value that was asked for, and under its other
   names what it read before.
   */
  lemma RetainNamesOutputs(m: Manifest, renamings: seq<Renaming>, t: Manifest, name: Text)
    requires Distinct(Sources(renamings)) && renamings != [] && Retain(m, renamings) == Ok(t)
    requires forall i :: 0 <= i < |renamings| ==> renamings[i].to !in NamesOf(m.nodes)
    requires name in Sources(renamings) || (name in m.nodes[RetainIndex(m, renamings)].inputs && name in NamesOf(m.nodes))
    ensures var names, o := AsMap(renamings), RetainIndex(m, renamings);
            && |t.nodes| == |m.nodes| && Get(names, name) in Operands(t.nodes[o])
            && Resolve(t.nodes, o, Get(names, name)) == Resolve(m.nodes, o, name)
  {
    var names, o := AsMap(renamings), RetainIndex(m, renamings);
    RetainShape(m, renamings, t);
    FreshIsInjective(m.nodes, renamings);
    RetainReads(m, renamings, t, name);
    hide AsMap, OutputIndex, Retain, InjectiveOn, Operands, RetainIndex;
    assert name in NamesOf(m.nodes) by {
      if name in Sources(renamings) {
        var i :| 0 <= i < |renamings| && Sources(renamings)[i] == name;
      }
    }
    hide *;
    ResolveInjective(m.nodes, names, o, name);
    ResolveRenamedPrefix(m.nodes, t.nodes, names, o, Get(names, name));
  }

  lemma ResolveRenamedPrefix(nodes: seq<Node>, after: seq<Node>, names: map<Text, Text>, o: nat, name: Text)
    requires |after| == |nodes| && o <= |nodes| && forall i :: 0 <= i < o ==> after[i] == RenameNode(nodes[i], names)
    ensures Resolve(after, o, name) == Resolve(RenameNodes(nodes, names), o, name)
  {
    var renamed := RenameNodes(nodes, names);
    assert forall j :: 0 <= j < o ==> after[j] == renamed[j];
    hide RenameNodes, RenameNode;
    ResolveSameNames(after, renamed, o, name);
  }

  lemma RetainReads(m: Manifest, renamings: seq<Renaming>, t: Manifest, name: Text)
    requires Distinct(Sources(renamings)) && renamings != [] && Retain(m, renamings) == Ok(t)
    requires name in Sources(renamings) || name in m.nodes[RetainIndex(m, renamings)].inputs
    ensures |t.nodes| == |m.nodes| && Get(AsMap(renamings), name) in Operands(t.nodes[RetainIndex(m, renamings)])
  {
    var names, o := AsMap(renamings), RetainIndex(m, renamings);
    RetainShape(m, renamings, t);
    hide Operands, OutputIndex, Retain, NamesOf, RetainIndex;
    var inputs, returned := t.nodes[o].inputs, m.nodes[o].inputs;
    assert Get(names, name) in inputs by {
      if name in Sources(renamings) {
        var i :| 0 <= i < |renamings| && Sources(renamings)[i] == name;
        RetainedSource(renamings, i);
        assert Targets(renamings)[i] in Targets(renamings);
      } else {
        hide AsMap;
        var i :| 0 <= i < |returned| && returned[i] == name;
        assert GetAll(names, returned)[i] == Get(names, name);
      }
    }
    hide AsMap, GetAll, Targets;
    InputIsRead(t.nodes[o], Get(names, name));
  }

  lemma InputIsRead(n: Node, name: Text)
    requires name in n.inputs
    ensures name in Operands(n)
  {
    hide RefsOfAll, RefsOfFields;
  }

  /** And every node before the output node computes what it did. */
  lemma RetainKeepsValues<V>(m: Manifest, renamings: seq<Renaming>, t: Manifest, meaning: Meaning<V>,
                             renamed: Meaning<V>, i: nat)
    requires Distinct(Sources(renamings)) && Closed(m.nodes) && renamings != [] && Retain(m, renamings) == Ok(t)
    requires forall k :: 0 <= k < |renamings| ==> renamings[k].to !in NamesOf(m.nodes)
    requires AllClean(m.nodes, AsMap(renamings)) && SameInputs(m.nodes, AsMap(renamings), meaning, renamed)
    requires i < RetainIndex(m, renamings)
    ensures |t.nodes| == |m.nodes| && Value(t.nodes, renamed, i) == Value(m.nodes, meaning, i)
  {
    var names, o := AsMap(renamings), RetainIndex(m, renamings);
    RetainShape(m, renamings, t);
    FreshIsInjective(m.nodes, renamings);
    hide AsMap, OutputIndex, Retain, RetainIndex, NamesOf, Sources, RenameNode;
    InjectiveKeepsDataflow(m.nodes, names);
    RenamingKeepsValues(m.nodes, names, meaning, renamed, i);
    assert forall j :: 0 <= j < o ==> t.nodes[j] == RenameNodes(m.nodes, names)[j];
    ValueOfPrefix(t.nodes, RenameNodes(m.nodes, names), renamed, o, i);
  }

  /** The target graph is itself closed, so retaining more outputs from it keeps it so. */
  lemma TargetIsClosed(m: Manifest, layers: nat, t: Manifest)
    requires layers >= 2 && Target(m, layers) == Ok(t) && StraightLine(m.nodes) && NoneCaptured(m.nodes, NamesFor(m, layers))
    requires |m.outputs| == 2 + 2 * layers
    requires forall k :: 0 <= k < |m.outputs| ==> m.outputs[k] in Operands(m.nodes[OutputNode(m, layers)])
    ensures Closed(t.nodes)
  {
    var names, o := NamesFor(m, layers), OutputNode(m, layers);
    TargetShape(m, layers, t);
    RenamingKeepsDataflow(m.nodes, names);
    forall j | 0 <= j < |m.nodes|
      ensures t.nodes[j].name == Get(names, m.nodes[j].name)
    {
      if j != o {
        RenamedName(m.nodes[j], names);
      }
    }
    forall i, k | 0 <= i < |t.nodes| && 0 <= k < |Operands(t.nodes[i])|
      ensures Resolve(t.nodes, i, Operands(t.nodes[i])[k]).Some?
    {
      if i == o {
        OutputIsResolved(m, layers, t, k);
      } else {
        OperandsRenamed(m.nodes[i], names);
        RenamedIsResolved(m.nodes, t.nodes, names, i, k);
      }
    }
  }

  lemma RenamedIsResolved(nodes: seq<Node>, target: seq<Node>, names: map<Text, Text>, i: nat, k: nat)
    requires |target| == |nodes| && (forall j :: 0 <= j < |nodes| ==> target[j].name == Get(names, nodes[j].name))
    requires Closed(nodes) && DataflowKept(nodes, names) && i < |nodes| && k < |Operands(nodes[i])|
    requires Operands(target[i]) == GetAll(names, Operands(nodes[i]))
    ensures Resolve(target, i, Operands(target[i])[k]).Some?
  {
    hide Operands;
    assert Operands(target[i])[k] == Get(names, Operands(nodes[i])[k]);
    ResolveSameNames(target, RenameNodes(nodes, names), i, Operands(target[i])[k]);
  }

  lemma OutputIsResolved(m: Manifest, layers: nat, t: Manifest, k: nat)
    requires layers >= 2 && Target(m, layers) == Ok(t) && StraightLine(m.nodes) && NoneCaptured(m.nodes, NamesFor(m, layers))
    requires |m.outputs| == 2 + 2 * layers && |t.nodes| == |m.nodes| && k < |Operands(t.nodes[OutputNode(m, layers)])|
    requires forall j :: 0 <= j < |m.outputs| ==> m.outputs[j] in Operands(m.nodes[OutputNode(m, layers)])
    ensures Resolve(t.nodes, OutputNode(m, layers), Operands(t.nodes[OutputNode(m, layers)])[k]).Some?
  {
    var o := OutputNode(m, layers);
    TargetShape(m, layers, t);
    hide Target, NamesFor, NoneCaptured, Operands, OutputNode, StateName, LogitsName, DistinctOutputs;
    var j := HalfOf(Retained(layers), k);
    RetainedLength(layers);
    hide Retained;
    assert RawOf(m.outputs, layers, j) in Operands(m.nodes[o]);
    TargetNamesOutputs(m, layers, t, j);
    hide Resolve, RawOf;
    OperandIsResolved(m.nodes, o, RawOf(m.outputs, layers, j));
  }

  lemma HalfOf<T>(s: seq<T>, k: nat) returns (j: nat)
    requires k < |s + s|
    ensures j < |s| && (s + s)[k] == s[j]
  {
    j := if k < |s| then k else k - |s|;
  }

  lemma RetainedLength(layers: nat)
    ensures |Retained(layers)| == 1 + 2 * layers
  {
    hide StateName;
  }

  lemma OperandIsResolved(nodes: seq<Node>, i: nat, operand: Text)
    requires Closed(nodes) && i < |nodes| && operand in Operands(nodes[i])
    ensures Resolve(nodes, i, operand).Some?
  {
    hide Operands;
    var k :| 0 <= k < |Operands(nodes[i])| && Operands(nodes[i])[k] == operand;
  }

  // ---------------------------------------------------------------------------------------
  // On the serialized manifests
  // ---------------------------------------------------------------------------------------

  /**
   The target graph is what string replacement makes of the serialized manifest, with its outputs
   replaced, when no word of the format in use has the name of an input or output.
   */
  lemma TargetReplacesStrings(m: Manifest, layers: nat, t: Manifest) returns (replaced: Manifest)
    requires layers >= 2 && Target(m, layers) == Ok(t) && AllWordsKept(m.nodes, NamesFor(m, layers))
    ensures ReplaceNames(ManifestData(m), NamesFor(m, layers)) == ManifestData(replaced)
    ensures WithOutputs(replaced, Retained(layers), Retained(layers)) == Ok(t)
  {
    var names := NamesFor(m, layers);
    replaced := RenameManifest(m, names);
    ReplacingRenames(m, names);
    hide ReplaceNames, ManifestData, AllWordsKept, RenameManifest, RuntimeNames, OutputNamesOf, WithOutputs, Retained,
         StateName;
  }

  /** The same for retaining diagnostic outputs. */
  lemma RetainReplacesStrings(m: Manifest, renamings: seq<Renaming>, t: Manifest) returns (replaced: Manifest)
    requires renamings != [] && Retain(m, renamings) == Ok(t) && AllWordsKept(m.nodes, AsMap(renamings))
    ensures ReplaceNames(ManifestData(m), AsMap(renamings)) == ManifestData(replaced)
    ensures var o := RetainIndex(m, renamings);
            && o < |replaced.nodes|
            && WithOutputs(replaced, replaced.outputs + Targets(renamings), replaced.nodes[o].inputs + Targets(renamings)) == Ok(t)
  {
    replaced := RenameManifest(m, AsMap(renamings));
    ReplacingRenames(m, AsMap(renamings));
    hide ReplaceNames, ManifestData, AllWordsKept, WithOutputs, AsMap, NamesOf, InNamespace, OutputIndex, RenameNode;
  }
}
