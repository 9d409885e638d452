/**
 Why the shared name of a cache input and its output is harmless in a traced decode graph: `update`
 reads the input into the new state and puts that in its place, so nothing later can read the input.
 */
module CacheTrace {
  import opened Results
  import opened Utf8
  import opened FxGraph
  import opened GraphNames

  /**
   The graph so far, the tensors the cache facade holds and those it was given. Slot 2 l is the key of
   layer l and slot 2 l + 1 its value.
   */
  datatype Tracing = Tracing(nodes: seq<Node>, slots: seq<Text>, origin: seq<Text>)

  datatype Step =
    | Emit(node: Node)                         // an operation of the model
    | Concat(layer: nat, key: Node, value: Node)  // the two nodes of one `update`

  /** The model only gets at values it computed: what the cache was given stays inside the facade. */
  predicate Visible(t: Tracing, name: Text) {
    name in NamesOf(t.nodes) && name !in t.origin
  }

  /** What a new node may read, when it may also read the state in `slot`. */
  ghost predicate Reads(t: Tracing, n: Node, slot: Option<Text>) {
    forall k :: 0 <= k < |Operands(n)| ==> Visible(t, Operands(n)[k]) || slot == Some(Operands(n)[k])
  }

  ghost predicate Legal(t: Tracing, e: Step) {
    match e
    case Emit(n) => n.name !in NamesOf(t.nodes) && Reads(t, n, None)
    case Concat(l, key, value) =>
      && 2 * l + 1 < |t.slots| && key.name != value.name
      && key.name !in NamesOf(t.nodes) && value.name !in NamesOf(t.nodes)
      && Reads(t, key, Some(t.slots[2 * l])) && Reads(t, value, Some(t.slots[2 * l + 1]))
  }

  function Next(t: Tracing, e: Step): Tracing
    requires Legal(t, e)
  {
    match e
    case Emit(n) => t.(nodes := t.nodes + [n])
    case Concat(l, key, value) => Put(Put(t, 2 * l, key), 2 * l + 1, value)
  }

  function Put(t: Tracing, s: nat, n: Node): Tracing
    requires s < |t.slots|
  {
    Tracing(t.nodes + [n], t.slots[s := n.name], t.origin)
  }

  /** The placeholders, among them the cache states in their slots; placeholders read nothing. */
  ghost predicate Initial(t: Tracing) {
    && SingleAssignment(t.nodes) && t.slots == t.origin
    && (forall i :: 0 <= i < |t.nodes| ==> Operands(t.nodes[i]) == [])
    && (forall s :: 0 <= s < |t.origin| ==> t.origin[s] in NamesOf(t.nodes))
    && (forall s, r :: 0 <= s < r < |t.origin| ==> t.origin[s] != t.origin[r])
  }

  // ---------------------------------------------------------------------------------------
  // The invariant
  // ---------------------------------------------------------------------------------------

  /** Nothing reads what slot `s` was given after the node that is now in the slot, which comes later. */
  ghost predicate SlotIsPast(t: Tracing, s: nat)
    requires s < |t.slots| == |t.origin|
  {
    if t.slots[s] == t.origin[s] then
      forall i :: 0 <= i < |t.nodes| ==> t.origin[s] !in Operands(t.nodes[i])
    else
      && t.slots[s] !in t.origin
      && (forall p, o :: 0 <= p < |t.nodes| && 0 <= o < |t.nodes| ==>
            t.nodes[p].name == t.origin[s] && t.nodes[o].name == t.slots[s] ==> p < o)
      && forall o, i :: 0 <= o < i < |t.nodes| && t.nodes[o].name == t.slots[s] ==> t.origin[s] !in Operands(t.nodes[i])
  }

  ghost predicate Invariant(t: Tracing) {
    && |t.slots| == |t.origin| && SingleAssignment(t.nodes)
    && (forall s :: 0 <= s < |t.origin| ==> t.origin[s] in NamesOf(t.nodes) && t.slots[s] in NamesOf(t.nodes))
    && (forall s, r :: 0 <= s < r < |t.origin| ==> t.origin[s] != t.origin[r])
    && forall s :: 0 <= s < |t.origin| ==> SlotIsPast(t, s)
  }

  lemma InitialHolds(t: Tracing)
    requires Initial(t)
    ensures Invariant(t)
  {
    hide Operands;
  }

  lemma NamesSnoc(nodes: seq<Node>, n: Node)
    ensures NamesOf(nodes + [n]) == NamesOf(nodes) + {n.name}
  {
    var all := nodes + [n];
    forall name | name in NamesOf(nodes)
      ensures name in NamesOf(all)
    {
      var i :| 0 <= i < |nodes| && nodes[i].name == name;
      assert all[i].name == name;
    }
    assert all[|nodes|].name == n.name;
  }

  /** A node that reads nothing the cache was given keeps every slot past it. */
  lemma AppendKeepsSlot(t: Tracing, n: Node, s: nat)
    requires Invariant(t) && s < |t.origin| && n.name !in NamesOf(t.nodes) && t.origin[s] !in Operands(n)
    ensures SlotIsPast(t.(nodes := t.nodes + [n]), s)
  {
    hide Operands;
    var all := t.nodes + [n];
    forall i | 0 <= i < |all| && t.slots[s] == t.origin[s]
      ensures t.origin[s] !in Operands(all[i])
    {
      assert SlotIsPast(t, s);
    }
    forall o, i | 0 <= o < i < |all| && all[o].name == t.slots[s] && t.slots[s] != t.origin[s]
      ensures t.origin[s] !in Operands(all[i])
    {
      assert SlotIsPast(t, s);
    }
    forall p, o | 0 <= p < |all| && 0 <= o < |all| && all[p].name == t.origin[s] && all[o].name == t.slots[s]
                  && t.slots[s] != t.origin[s]
      ensures p < o
    {
      assert SlotIsPast(t, s);
      assert n.name != t.origin[s] && n.name != t.slots[s];
    }
    assert SlotIsPast(t, s);
  }

  lemma AppendKeepsNames(t: Tracing, n: Node)
    requires Invariant(t) && n.name !in NamesOf(t.nodes)
    ensures SingleAssignment(t.nodes + [n])
  {
    hide Operands, SlotIsPast;
    assert forall i :: 0 <= i < |t.nodes| ==> t.nodes[i].name in NamesOf(t.nodes);
  }

  lemma EmitKeeps(t: Tracing, n: Node)
    requires Invariant(t) && Legal(t, Emit(n))
    ensures Invariant(Next(t, Emit(n)))
  {
    NamesSnoc(t.nodes, n);
    AppendKeepsNames(t, n);
    forall s | 0 <= s < |t.origin|
      ensures SlotIsPast(t.(nodes := t.nodes + [n]), s)
    {
      NotRead(t, n, None, s);
      AppendKeepsSlot(t, n, s);
    }
    hide SlotIsPast, SingleAssignment, Operands, NamesOf;
  }

  /** A legal node does not read what slot `s` was given, unless that is the state it is allowed. */
  lemma NotRead(t: Tracing, n: Node, slot: Option<Text>, s: nat)
    requires Reads(t, n, slot) && s < |t.origin| && slot != Some(t.origin[s])
    ensures t.origin[s] !in Operands(n)
  {
    hide Operands, NamesOf;
  }

  /** Putting a node into its slot, after reading the state that was there, keeps the invariant. */
  lemma PutKeeps(t: Tracing, s: nat, n: Node)
    requires Invariant(t) && s < |t.slots| && n.name !in NamesOf(t.nodes) && Reads(t, n, Some(t.slots[s]))
    ensures Invariant(Put(t, s, n))
  {
    var next := Put(t, s, n);
    NamesSnoc(t.nodes, n);
    AppendKeepsNames(t, n);
    forall r | 0 <= r < |t.origin|
      ensures SlotIsPast(next, r)
    {
      if r == s {
        PutIsPast(t, s, n);
      } else {
        OtherSlot(t, s, r);
        NotRead(t, n, Some(t.slots[s]), r);
        AppendKeepsSlot(t, n, r);
        assert SlotIsPast(t.(nodes := t.nodes + [n]), r);
      }
    }
    hide SlotIsPast, SingleAssignment, Operands, NamesOf, Reads;
  }

  lemma OtherSlot(t: Tracing, s: nat, r: nat)
    requires Invariant(t) && s < |t.slots| && r < |t.slots| && r != s
    ensures t.slots[s] != t.origin[r]
  {
    assert SlotIsPast(t, s);
    hide SlotIsPast, SingleAssignment, NamesOf;
    assert t.slots[s] == t.origin[s] || t.slots[s] !in t.origin;
  }

  lemma PutIsPast(t: Tracing, s: nat, n: Node)
    requires Invariant(t) && s < |t.slots| && n.name !in NamesOf(t.nodes)
    ensures SlotIsPast(Put(t, s, n), s)
  {
    hide Operands, SlotIsPast;
    var next := Put(t, s, n);
    assert n.name !in t.origin;
    forall o | 0 <= o < |t.nodes|
      ensures next.nodes[o].name != n.name
    {
      assert t.nodes[o].name in NamesOf(t.nodes);
    }
    LastIsPast(next, s);
  }

  lemma LastIsPast(t: Tracing, s: nat)
    requires s < |t.slots| == |t.origin| && t.slots[s] !in t.origin
    requires forall o :: 0 <= o < |t.nodes| - 1 ==> t.nodes[o].name != t.slots[s]
    ensures SlotIsPast(t, s)
  {
    hide Operands;
  }

  lemma ConcatKeeps(t: Tracing, l: nat, key: Node, value: Node)
    requires Invariant(t) && Legal(t, Concat(l, key, value))
    ensures Invariant(Next(t, Concat(l, key, value)))
  {
    NamesSnoc(t.nodes, key);
    hide Invariant, Reads, NamesOf;
    BothKeep(t, 2 * l, 2 * l + 1, key, value);
  }

  lemma BothKeep(t: Tracing, s: nat, r: nat, key: Node, value: Node)
    requires Invariant(t) && s < |t.slots| && r < |t.slots| && s != r && key.name != value.name
    requires key.name !in NamesOf(t.nodes) && value.name !in NamesOf(t.nodes)
    requires Reads(t, key, Some(t.slots[s])) && Reads(t, value, Some(t.slots[r]))
    ensures Invariant(Put(Put(t, s, key), r, value))
  {
    hide Invariant, Reads, NamesOf;
    NamesSnoc(t.nodes, key);
    ReadsAfterPut(t, s, key, value, t.slots[r]);
    PutKeeps(t, s, key);
    PutKeeps(Put(t, s, key), r, value);
  }

  /** What may be read before a node is put into a slot may be read after it. */
  lemma ReadsAfterPut(t: Tracing, s: nat, n: Node, reader: Node, state: Text)
    requires s < |t.slots| && Reads(t, reader, Some(state))
    ensures Reads(Put(t, s, n), reader, Some(state))
  {
    NamesSnoc(t.nodes, n);
    hide Operands, NamesOf;
  }

  /** Every traced operation and every `update` keeps the invariant. */
  lemma StepKeeps(t: Tracing, e: Step)
    requires Invariant(t) && Legal(t, e)
    ensures Invariant(Next(t, e))
  {
    match e {
      case Emit(n) => EmitKeeps(t, n);
      case Concat(l, key, value) => ConcatKeeps(t, l, key, value);
    }
  }

  ghost predicate IsTrace(states: seq<Tracing>, steps: seq<Step>) {
    && |states| == |steps| + 1 && Initial(states[0])
    && forall i :: 0 <= i < |steps| ==> Legal(states[i], steps[i]) && states[i + 1] == Next(states[i], steps[i])
  }

  lemma {:induction false} TraceKeeps(states: seq<Tracing>, steps: seq<Step>, i: nat)
    requires IsTrace(states, steps) && i < |states|
    ensures Invariant(states[i]) && states[i].origin == states[0].origin
  {
    hide Legal, Next, Invariant, Initial;
    if i == 0 {
      InitialHolds(states[0]);
    } else {
      TraceKeeps(states, steps, i - 1);
      StepKeeps(states[i - 1], steps[i - 1]);
      OriginStays(states[i - 1], steps[i - 1]);
    }
  }

  /** No two slots hold the same tensor. */
  ghost predicate SlotsDiffer(t: Tracing) {
    forall s, r :: 0 <= s < r < |t.slots| ==> t.slots[s] != t.slots[r]
  }

  lemma {:induction false} TraceSlotsDiffer(states: seq<Tracing>, steps: seq<Step>, i: nat)
    requires IsTrace(states, steps) && i < |states|
    ensures SlotsDiffer(states[i])
  {
    hide Legal, Next, Invariant;
    if i > 0 {
      TraceSlotsDiffer(states, steps, i - 1);
      TraceKeeps(states, steps, i - 1);
      hide Initial, SlotsDiffer;
      StepSlotsDiffer(states[i - 1], steps[i - 1]);
    }
  }

  lemma StepSlotsDiffer(t: Tracing, e: Step)
    requires Invariant(t) && SlotsDiffer(t) && Legal(t, e)
    ensures SlotsDiffer(Next(t, e))
  {
    hide Reads, Operands, SlotIsPast, SingleAssignment, NamesOf;
    assert forall s :: 0 <= s < |t.slots| ==> t.slots[s] in NamesOf(t.nodes);
  }

  lemma OriginStays(t: Tracing, e: Step)
    requires Legal(t, e)
    ensures Next(t, e).origin == t.origin
  {
  }

  // ---------------------------------------------------------------------------------------
  // The renamed graph
  // ---------------------------------------------------------------------------------------

  /** The output node returns computed values and the states the cache ends with. */
  ghost predicate Returns(t: Tracing, output: Node) {
    && output.name !in NamesOf(t.nodes)
    && forall k :: 0 <= k < |Operands(output)| ==> Visible(t, Operands(output)[k]) || Operands(output)[k] in t.slots
  }

  /** Two values share a new name only when they are a cache input and the output of its slot. */
  ghost predicate OnlyCachesShare(t: Tracing, nodes: seq<Node>, names: map<Text, Text>)
    requires |t.slots| == |t.origin|
  {
    forall p, o :: 0 <= p < o < |nodes| && Get(names, nodes[p].name) == Get(names, nodes[o].name) ==>
      exists s :: 0 <= s < |t.slots| && {nodes[p].name, nodes[o].name} == {t.origin[s], t.slots[s]}
  }

  lemma SharedSlotIsPast(t: Tracing, output: Node, s: nat, o: nat, i: nat)
    requires Invariant(t) && Returns(t, output) && s < |t.slots| && o < i <= |t.nodes|
    requires t.slots[s] != t.origin[s] && t.nodes[o].name == t.slots[s]
    ensures t.origin[s] !in Operands((t.nodes + [output])[i])
  {
    assert SlotIsPast(t, s);
    if i == |t.nodes| {
      forall r | 0 <= r < |t.slots|
        ensures t.slots[r] != t.origin[s]
      {
        if r != s {
          OtherSlot(t, r, s);
        }
      }
      hide Operands, SlotIsPast, SingleAssignment, NamesOf, Invariant;
      assert t.origin[s] !in t.slots;
    }
  }

  /**
   In every graph traced through the functional cache, giving each cache input and the output of its
   slot one name captures no read, so the renaming keeps the dataflow.
   */
  lemma TracedGraphIsUncaptured(states: seq<Tracing>, steps: seq<Step>, output: Node, names: map<Text, Text>)
    requires IsTrace(states, steps) && Returns(states[|steps|], output)
    requires |states[|steps|].slots| == |states[|steps|].origin|
    requires OnlyCachesShare(states[|steps|], states[|steps|].nodes + [output], names)
    ensures NoneCaptured(states[|steps|].nodes + [output], names)
    ensures SingleAssignment(states[|steps|].nodes + [output])
  {
    TraceKeeps(states, steps, |steps|);
    var t := states[|steps|];
    UncapturedTracing(t, output, names);
    AppendKeepsNames(t, output);
  }

  lemma InputComesFirst(t: Tracing, s: nat, p: nat, o: nat)
    requires Invariant(t) && s < |t.slots| && p < o < |t.nodes|
    requires {t.nodes[p].name, t.nodes[o].name} == {t.origin[s], t.slots[s]} && t.nodes[p].name != t.nodes[o].name
    ensures t.nodes[p].name == t.origin[s] && t.nodes[o].name == t.slots[s] && t.slots[s] != t.origin[s]
  {
    hide Operands, SingleAssignment, NamesOf;
    assert t.nodes[p].name in {t.origin[s], t.slots[s]} && t.nodes[o].name in {t.origin[s], t.slots[s]};
    assert t.origin[s] in {t.nodes[p].name, t.nodes[o].name} && t.slots[s] in {t.nodes[p].name, t.nodes[o].name};
    assert SlotIsPast(t, s);
  }

  /** Nothing reads a cache input after the node that ends in its slot. */
  lemma CachePairIsSafe(t: Tracing, output: Node, s: nat, p: nat, o: nat, i: nat)
    requires Invariant(t) && Returns(t, output) && s < |t.slots| && p < o < i <= |t.nodes|
    requires {t.nodes[p].name, t.nodes[o].name} == {t.origin[s], t.slots[s]}
    ensures t.nodes[p].name !in Operands((t.nodes + [output])[i])
  {
    assert t.nodes[p].name != t.nodes[o].name;
    InputComesFirst(t, s, p, o);
    hide Operands, SlotIsPast, Returns;
    SharedSlotIsPast(t, output, s, o, i);
  }

  lemma UncapturedTracing(t: Tracing, output: Node, names: map<Text, Text>)
    requires Invariant(t) && Returns(t, output) && OnlyCachesShare(t, t.nodes + [output], names)
    ensures NoneCaptured(t.nodes + [output], names)
  {
    var all := t.nodes + [output];
    AppendKeepsNames(t, output);
    forall p, o, i | 0 <= p < o < i < |all| && Get(names, all[p].name) == Get(names, all[o].name)
      ensures all[p].name !in Operands(all[i])
    {
      var s :| 0 <= s < |t.slots| && {all[p].name, all[o].name} == {t.origin[s], t.slots[s]};
      hide Operands, SlotIsPast, OnlyCachesShare, Returns;
      CachePairIsSafe(t, output, s, p, o, i);
    }
  }

  // ---------------------------------------------------------------------------------------
  // Nothing is read before it is traced
  // ---------------------------------------------------------------------------------------

  lemma ClosedSnoc(nodes: seq<Node>, n: Node)
    requires Closed(nodes) && forall k :: 0 <= k < |Operands(n)| ==> Operands(n)[k] in NamesOf(nodes)
    ensures Closed(nodes + [n])
  {
    var all := nodes + [n];
    hide Operands;
    forall i, k | 0 <= i < |all| && 0 <= k < |Operands(all[i])|
      ensures Resolve(all, i, Operands(all[i])[k]).Some?
    {
      ResolveSameNames(all, nodes, i, Operands(all[i])[k]);
      if i == |nodes| {
        Known(nodes, Operands(n)[k]);
      }
    }
  }

  lemma Known(nodes: seq<Node>, name: Text)
    requires name in NamesOf(nodes)
    ensures Resolve(nodes, |nodes|, name).Some?
  {
    var i :| 0 <= i < |nodes| && nodes[i].name == name;
  }

  /** A legal node reads only what is there. */
  lemma ReadsAreKnown(t: Tracing, n: Node, slot: Option<Text>)
    requires Invariant(t) && Reads(t, n, slot) && (slot.Some? ==> slot.value in NamesOf(t.nodes))
    ensures forall k :: 0 <= k < |Operands(n)| ==> Operands(n)[k] in NamesOf(t.nodes)
  {
    hide Operands, NamesOf, Invariant;
  }

  lemma StepIsClosed(t: Tracing, e: Step)
    requires Invariant(t) && Legal(t, e) && Closed(t.nodes)
    ensures Closed(Next(t, e).nodes)
  {
    match e {
      case Emit(n) =>
        ReadsAreKnown(t, n, None);
        hide Operands, NamesOf, Invariant, Closed;
        ClosedSnoc(t.nodes, n);
      case Concat(l, key, value) =>
        ReadsAreKnown(t, key, Some(t.slots[2 * l]));
        ReadsAreKnown(t, value, Some(t.slots[2 * l + 1]));
        NamesSnoc(t.nodes, key);
        hide Operands, NamesOf, Invariant, Closed;
        ClosedSnoc(t.nodes, key);
        ClosedSnoc(t.nodes + [key], value);
    }
  }

  lemma {:induction false} TraceIsClosed(states: seq<Tracing>, steps: seq<Step>, i: nat)
    requires IsTrace(states, steps) && i < |states|
    ensures Closed(states[i].nodes)
  {
    hide Legal, Next, Invariant, Closed;
    if i == 0 {
      NothingRead(states[0].nodes);
    } else {
      TraceIsClosed(states, steps, i - 1);
      TraceKeeps(states, steps, i - 1);
      StepIsClosed(states[i - 1], steps[i - 1]);
    }
  }

  lemma NothingRead(nodes: seq<Node>)
    requires forall i :: 0 <= i < |nodes| ==> Operands(nodes[i]) == []
    ensures Closed(nodes)
  {
    hide Operands;
  }

  /** The whole traced graph, output node included, is closed and names every node once. */
  lemma TracedGraphIsClosed(states: seq<Tracing>, steps: seq<Step>, output: Node)
    requires IsTrace(states, steps) && Returns(states[|steps|], output)
    ensures Closed(states[|steps|].nodes + [output]) && SingleAssignment(states[|steps|].nodes + [output])
  {
    var t := states[|steps|];
    TraceKeeps(states, steps, |steps|);
    TraceIsClosed(states, steps, |steps|);
    AppendKeepsNames(t, output);
    forall k | 0 <= k < |Operands(output)|
      ensures Operands(output)[k] in NamesOf(t.nodes)
    {
      if Operands(output)[k] in t.slots {
        SlotsAreKnown(t, Operands(output)[k]);
      }
    }
    hide Operands, NamesOf, Invariant, Closed;
    ClosedSnoc(t.nodes, output);
  }

  lemma SlotsAreKnown(t: Tracing, name: Text)
    requires Invariant(t) && name in t.slots
    ensures name in NamesOf(t.nodes)
  {
    hide SlotIsPast, SingleAssignment, NamesOf;
  }
}
