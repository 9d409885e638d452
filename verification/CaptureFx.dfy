/**
 How a graph and its static tensors are captured (`capture_from_fx` in
 python/llmopt_backend/__init__.py). The identity of a tensor is a number that stands for the tuple of
 device, address, offset, shape, strides and dtype; different tensor objects may share it.
 */
module CaptureFx {
  import opened Results
  import opened Utf8
  import G = FxGraph

  datatype Tensor = Tensor(identity: nat, handle: nat)

  /** What a static node holds. */
  datatype Value = Missing | NotTensor | Static(tensor: Tensor)

  datatype Kind = GetAttr(value: Value) | Placeholder(isStatic: bool) | Output | Call

  /** A graph node: its serialized form up to the binding, and the key its tensor would get. */
  datatype FxNode = FxNode(node: G.Node, kind: Kind, staticKey: Text)

  // ---------------------------------------------------------------------------------------
  // Insertion-ordered dictionaries
  // ---------------------------------------------------------------------------------------

  datatype Entry = Entry(key: Text, tensor: Tensor)

  predicate IsDictionary(entries: seq<Entry>) {
    forall i, j :: 0 <= i < j < |entries| ==> entries[i].key != entries[j].key
  }

  function Lookup(entries: seq<Entry>, key: Text): Option<Tensor> {
    if entries == [] then None
    else if entries[0].key == key then Some(entries[0].tensor)
    else Lookup(entries[1..], key)
  }

  /** `entries[key] = tensor`: an existing key keeps its position. */
  function Put(entries: seq<Entry>, key: Text, tensor: Tensor): seq<Entry> {
    if entries == [] then [Entry(key, tensor)]
    else if entries[0].key == key then [Entry(key, tensor)] + entries[1..]
    else [entries[0]] + Put(entries[1..], key, tensor)
  }

  lemma {:induction false} LookupAfterPut(entries: seq<Entry>, key: Text, tensor: Tensor, other: Text)
    ensures Lookup(Put(entries, key, tensor), other) == if other == key then Some(tensor) else Lookup(entries, other)
  {
    if entries != [] && entries[0].key != key {
      LookupAfterPut(entries[1..], key, tensor, other);
    }
  }

  lemma {:induction false} PutKeys(entries: seq<Entry>, key: Text, tensor: Tensor, i: nat)
    requires i < |Put(entries, key, tensor)|
    ensures var k := Put(entries, key, tensor)[i].key;
            k == key || exists j :: 0 <= j < |entries| && entries[j].key == k
  {
    if entries != [] && i > 0 {
      if entries[0].key == key {
        assert Put(entries, key, tensor)[i] == entries[i];
      } else {
        PutKeys(entries[1..], key, tensor, i - 1);
      }
    }
  }

  /** A key that is there keeps its place, a new one comes last. */
  lemma {:induction false} PutKeepsOrder(entries: seq<Entry>, key: Text, tensor: Tensor, i: nat)
    requires IsDictionary(entries)
    ensures i < |entries| && entries[i].key == key ==> Put(entries, key, tensor) == entries[i := Entry(key, tensor)]
    ensures (forall j :: 0 <= j < |entries| ==> entries[j].key != key) ==>
              Put(entries, key, tensor) == entries + [Entry(key, tensor)]
  {
    if entries != [] && entries[0].key != key {
      PutKeepsOrder(entries[1..], key, tensor, if i > 0 then i - 1 else 0);
      assert entries == [entries[0]] + entries[1..];
      if 0 < i < |entries| {
        assert entries[1..][i - 1] == entries[i];
        assert entries[i := Entry(key, tensor)] == [entries[0]] + entries[1..][i - 1 := Entry(key, tensor)];
      }
    } else if entries == [] {
      assert [] + [Entry(key, tensor)] == [Entry(key, tensor)];
    } else if i == 0 {
      assert entries[0 := Entry(key, tensor)] == [Entry(key, tensor)] + entries[1..];
    }
  }

  lemma {:induction false} PutIsDictionary(entries: seq<Entry>, key: Text, tensor: Tensor)
    requires IsDictionary(entries)
    ensures IsDictionary(Put(entries, key, tensor))
  {
    if entries != [] && entries[0].key != key {
      PutIsDictionary(entries[1..], key, tensor);
      var rest := Put(entries[1..], key, tensor);
      forall i | 0 <= i < |rest| ensures rest[i].key != entries[0].key {
        PutKeys(entries[1..], key, tensor, i);
      }
    }
  }

  lemma {:induction false} LookupInside(entries: seq<Entry>, i: nat)
    requires IsDictionary(entries) && i < |entries|
    ensures Lookup(entries, entries[i].key) == Some(entries[i].tensor)
  {
    if i > 0 {
      LookupInside(entries[1..], i - 1);
    }
  }

  lemma {:induction false} LookupFinds(entries: seq<Entry>, key: Text) returns (i: nat)
    requires Lookup(entries, key).Some?
    ensures i < |entries| && entries[i].key == key && Lookup(entries, key) == Some(entries[i].tensor)
  {
    if entries[0].key == key {
      i := 0;
    } else {
      i := LookupFinds(entries[1..], key);
      i := i + 1;
    }
  }

  // ---------------------------------------------------------------------------------------
  // Capture
  // ---------------------------------------------------------------------------------------

  datatype Captured = Captured(manifest: G.Manifest, tensors: seq<Entry>)

  /** A static node that does not hold a tensor. */
  datatype CaptureError = NotATensor(node: Text)

  /** The three dictionaries the first loop fills. */
  datatype Maps = Maps(canonical: map<nat, Text>, keyByNode: map<Text, Text>, tensors: seq<Entry>)

  /** FX gives every node its own name. */
  predicate DistinctNames(nodes: seq<FxNode>) {
    forall i, j :: 0 <= i < j < |nodes| ==> nodes[i].node.name != nodes[j].node.name
  }

  function PlaceholdersBefore(nodes: seq<FxNode>, i: nat): nat
    requires i <= |nodes|
  {
    if i == 0 then 0
    else PlaceholdersBefore(nodes, i - 1) + if nodes[i - 1].kind.Placeholder? then 1 else 0
  }

  /** The value a node contributes: an attribute, or the example input of a static placeholder. */
  function StaticValue(nodes: seq<FxNode>, inputs: seq<Value>, i: nat): Value
    requires i < |nodes|
  {
    match nodes[i].kind
    case GetAttr(value) => value
    case Placeholder(true) =>
      var k := PlaceholdersBefore(nodes, i);
      if k < |inputs| then inputs[k] else Missing
    case _ => Missing
  }

  function Record(m: Maps, node: FxNode, tensor: Tensor): Maps {
    if tensor.identity in m.canonical then
      m.(keyByNode := m.keyByNode[node.node.name := m.canonical[tensor.identity]])
    else
      Maps(m.canonical[tensor.identity := node.staticKey],
           m.keyByNode[node.node.name := node.staticKey],
           Put(m.tensors, node.staticKey, tensor))
  }

  /** The dictionaries after the first `n` nodes. */
  function MapsAfter(nodes: seq<FxNode>, inputs: seq<Value>, n: nat): Result<Maps, CaptureError>
    requires n <= |nodes|
  {
    if n == 0 then Ok(Maps(map[], map[], []))
    else
      var m :- MapsAfter(nodes, inputs, n - 1);
      match StaticValue(nodes, inputs, n - 1)
      case Missing => Ok(m)
      case NotTensor => Err(NotATensor(nodes[n - 1].node.name))
      case Static(tensor) => Ok(Record(m, nodes[n - 1], tensor))
  }

  function Bound(n: FxNode, keyByNode: map<Text, Text>): G.Node {
    n.node.(binding :=
      if n.node.name in keyByNode then G.TensorStore(keyByNode[n.node.name])
      else if n.kind.Placeholder? then G.Runtime
      else G.Computed)
  }

  function BoundAll(nodes: seq<FxNode>, keyByNode: map<Text, Text>): seq<G.Node> {
    seq(|nodes|, i requires 0 <= i < |nodes| => Bound(nodes[i], keyByNode))
  }

  /** The references of the last output node. */
  function OutputNames(nodes: seq<FxNode>): seq<Text> {
    if nodes == [] then []
    else if nodes[|nodes| - 1].kind.Output? then nodes[|nodes| - 1].node.inputs
    else OutputNames(nodes[..|nodes| - 1])
  }

  function Capture(nodes: seq<FxNode>, inputs: seq<Value>): Result<Captured, CaptureError> {
    var m :- MapsAfter(nodes, inputs, |nodes|);
    Ok(Captured(G.Manifest(G.MANIFEST_VERSION, BoundAll(nodes, m.keyByNode), OutputNames(nodes)), m.tensors))
  }

  /** `capture_from_fx` as the loops of the source. */
  method CaptureFromFx(nodes: seq<FxNode>, inputs: seq<Value>) returns (r: Result<Captured, CaptureError>)
    ensures r == Capture(nodes, inputs)
  {
    var canonical: map<nat, Text> := map[];
    var keyByNode: map<Text, Text> := map[];
    var tensors: seq<Entry> := [];
    var placeholders: nat := 0;
    var i := 0;
    while i < |nodes|
      invariant i <= |nodes| && placeholders == PlaceholdersBefore(nodes, i)
      invariant MapsAfter(nodes, inputs, i) == Ok(Maps(canonical, keyByNode, tensors))
    {
      hide Bound, BoundAll, OutputNames, Put;
      var n := nodes[i];
      var value := Missing;
      if n.kind.GetAttr? {
        value := n.kind.value;
      } else if n.kind.Placeholder? && n.kind.isStatic {
        value := if placeholders < |inputs| then inputs[placeholders] else Missing;
      }
      if n.kind.Placeholder? {
        placeholders := placeholders + 1;
      }
      if value.NotTensor? {
        MapsFail(nodes, inputs, i + 1, |nodes|);
        return Err(NotATensor(n.node.name));
      }
      if value.Static? {
        var identity := value.tensor.identity;
        if identity !in canonical {
          canonical := canonical[identity := n.staticKey];
          tensors := Put(tensors, n.staticKey, value.tensor);
        }
        keyByNode := keyByNode[n.node.name := canonical[identity]];
      }
      i := i + 1;
    }
    var serialized, outputs := SerializeNodes(nodes, keyByNode);
    r := Ok(Captured(G.Manifest(G.MANIFEST_VERSION, serialized, outputs), tensors));
  }

  /** The second loop: every node with its binding, and the references of the output node. */
  method SerializeNodes(nodes: seq<FxNode>, keyByNode: map<Text, Text>)
    returns (serialized: seq<G.Node>, outputs: seq<Text>)
    ensures serialized == BoundAll(nodes, keyByNode) && outputs == OutputNames(nodes)
  {
    hide Bound;
    serialized := [];
    outputs := [];
    var i := 0;
    while i < |nodes|
      invariant i <= |nodes| && |serialized| == i
      invariant forall j :: 0 <= j < i ==> serialized[j] == Bound(nodes[j], keyByNode)
      invariant outputs == OutputNames(nodes[..i])
    {
      assert nodes[..i + 1][..i] == nodes[..i];
      if nodes[i].kind.Output? {
        outputs := nodes[i].node.inputs;
      }
      serialized := serialized + [Bound(nodes[i], keyByNode)];
      i := i + 1;
    }
    assert nodes[..|nodes|] == nodes;
  }

  lemma {:induction false} MapsFail(nodes: seq<FxNode>, inputs: seq<Value>, i: nat, n: nat)
    requires i <= n <= |nodes| && MapsAfter(nodes, inputs, i).Err?
    ensures MapsAfter(nodes, inputs, n) == MapsAfter(nodes, inputs, i)
  {
    if i < n {
      MapsFail(nodes, inputs, i, n - 1);
    }
  }

  // ---------------------------------------------------------------------------------------
  // What the capture keeps
  // ---------------------------------------------------------------------------------------

  predicate IsStatic(nodes: seq<FxNode>, inputs: seq<Value>, i: int) {
    0 <= i < |nodes| && StaticValue(nodes, inputs, i).Static?
  }

  function TensorOf(nodes: seq<FxNode>, inputs: seq<Value>, i: int): Tensor
    requires IsStatic(nodes, inputs, i)
  {
    StaticValue(nodes, inputs, i).tensor
  }

  /** The node that gives its tensor's identity a key. */
  predicate IsFirst(nodes: seq<FxNode>, inputs: seq<Value>, i: int) {
    && IsStatic(nodes, inputs, i)
    && forall j :: 0 <= j < i && IsStatic(nodes, inputs, j) ==>
         TensorOf(nodes, inputs, j).identity != TensorOf(nodes, inputs, i).identity
  }

  /** Every static node is bound to the key of its tensor's identity. */
  ghost predicate NodesKeyed(nodes: seq<FxNode>, inputs: seq<Value>, n: nat, m: Maps) {
    forall i :: 0 <= i < n && IsStatic(nodes, inputs, i) ==>
      var id := TensorOf(nodes, inputs, i).identity;
      id in m.canonical && nodes[i].node.name in m.keyByNode && m.keyByNode[nodes[i].node.name] == m.canonical[id]
  }

  ghost predicate HasStaticNode(nodes: seq<FxNode>, inputs: seq<Value>, n: nat, name: Text) {
    exists i :: 0 <= i < n && IsStatic(nodes, inputs, i) && nodes[i].node.name == name
  }

  ghost predicate OnlyStatic(nodes: seq<FxNode>, inputs: seq<Value>, n: nat, m: Maps) {
    forall name :: name in m.keyByNode ==> HasStaticNode(nodes, inputs, n, name)
  }

  ghost predicate HasFirst(nodes: seq<FxNode>, inputs: seq<Value>, n: nat, m: Maps, id: nat) {
    exists i :: 0 <= i < n && Names(nodes, inputs, m, id, i)
  }

  ghost predicate AllNamed(nodes: seq<FxNode>, inputs: seq<Value>, n: nat, m: Maps) {
    forall id :: id in m.canonical ==> HasFirst(nodes, inputs, n, m, id)
  }

  /** Every key in use is in the store, under a tensor that uses it. */
  ghost predicate Stored(m: Maps) {
    && IsDictionary(m.tensors)
    && (forall id :: id in m.canonical ==> Lookup(m.tensors, m.canonical[id]).Some?)
    && (forall key :: Lookup(m.tensors, key).Some? ==>
          var id := Lookup(m.tensors, key).value.identity;
          id in m.canonical && m.canonical[id] == key)
  }

  ghost predicate Sound(nodes: seq<FxNode>, inputs: seq<Value>, n: nat, m: Maps) {
    && NodesKeyed(nodes, inputs, n, m) && OnlyStatic(nodes, inputs, n, m)
    && AllNamed(nodes, inputs, n, m) && Stored(m)
  }

  /** Node `i` is where `id` got its key. */
  ghost predicate Names(nodes: seq<FxNode>, inputs: seq<Value>, m: Maps, id: nat, i: int) {
    && IsFirst(nodes, inputs, i) && TensorOf(nodes, inputs, i).identity == id
    && id in m.canonical && m.canonical[id] == nodes[i].staticKey
  }
}
