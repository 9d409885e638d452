/**
 When a capture keeps every tensor: `tensors[key] = tensor` overwrites, so two identities whose first
 nodes have the same static key leave only the later one in the store.
 */
module CaptureLaws {
  import opened Results
  import opened Utf8
  import opened CaptureFx
  import G = FxGraph

  // ---------------------------------------------------------------------------------------
  // The dictionaries agree with each other
  // ---------------------------------------------------------------------------------------

  lemma FreshIdentityIsFirst(nodes: seq<FxNode>, inputs: seq<Value>, n: nat, m: Maps)
    requires n < |nodes| && NodesKeyed(nodes, inputs, n, m) && IsStatic(nodes, inputs, n)
    requires TensorOf(nodes, inputs, n).identity !in m.canonical
    ensures IsFirst(nodes, inputs, n)
  {
    hide StaticValue;
  }

  lemma RecordKeyed(nodes: seq<FxNode>, inputs: seq<Value>, n: nat, m: Maps)
    requires DistinctNames(nodes) && n < |nodes| && NodesKeyed(nodes, inputs, n, m) && IsStatic(nodes, inputs, n)
    ensures NodesKeyed(nodes, inputs, n + 1, Record(m, nodes[n], TensorOf(nodes, inputs, n)))
  {
    hide StaticValue, Put;
  }

  lemma RecordOnlyStatic(nodes: seq<FxNode>, inputs: seq<Value>, n: nat, m: Maps)
    requires n < |nodes| && OnlyStatic(nodes, inputs, n, m) && IsStatic(nodes, inputs, n)
    ensures OnlyStatic(nodes, inputs, n + 1, Record(m, nodes[n], TensorOf(nodes, inputs, n)))
  {
    hide StaticValue, Put;
    var m' := Record(m, nodes[n], TensorOf(nodes, inputs, n));
    forall name | name in m'.keyByNode
      ensures HasStaticNode(nodes, inputs, n + 1, name)
    {
      if name == nodes[n].node.name {
        assert IsStatic(nodes, inputs, n);
      } else {
        StillStatic(nodes, inputs, n, name);
      }
    }
  }

  lemma StillStatic(nodes: seq<FxNode>, inputs: seq<Value>, n: nat, name: Text)
    requires HasStaticNode(nodes, inputs, n, name)
    ensures HasStaticNode(nodes, inputs, n + 1, name)
  {
    hide StaticValue;
  }

  lemma StillNamed(nodes: seq<FxNode>, inputs: seq<Value>, n: nat, m: Maps, m': Maps, id: nat)
    requires HasFirst(nodes, inputs, n, m, id)
    requires id in m.canonical && id in m'.canonical && m'.canonical[id] == m.canonical[id]
    ensures HasFirst(nodes, inputs, n + 1, m', id)
  {
    hide IsFirst, IsStatic;
    var i :| 0 <= i < n && Names(nodes, inputs, m, id, i);
    assert Names(nodes, inputs, m', id, i);
  }

  lemma RecordNamed(nodes: seq<FxNode>, inputs: seq<Value>, n: nat, m: Maps)
    requires n < |nodes| && NodesKeyed(nodes, inputs, n, m) && AllNamed(nodes, inputs, n, m)
    requires IsStatic(nodes, inputs, n)
    ensures AllNamed(nodes, inputs, n + 1, Record(m, nodes[n], TensorOf(nodes, inputs, n)))
  {
    var t := TensorOf(nodes, inputs, n);
    var m' := Record(m, nodes[n], t);
    if t.identity !in m.canonical {
      FreshIdentityIsFirst(nodes, inputs, n, m);
      assert Names(nodes, inputs, m', t.identity, n);
    }
    hide IsFirst, IsStatic, StaticValue, Put, NodesKeyed, Names;
    forall id | id in m'.canonical
      ensures HasFirst(nodes, inputs, n + 1, m', id)
    {
      if id in m.canonical {
        hide HasFirst;
        StillNamed(nodes, inputs, n, m, m', id);
      }
    }
  }

  lemma RecordStored(m: Maps, node: FxNode, t: Tensor)
    requires Stored(m)
    ensures Stored(Record(m, node, t))
  {
    if t.identity !in m.canonical {
      var tensors := Put(m.tensors, node.staticKey, t);
      PutIsDictionary(m.tensors, node.staticKey, t);
      forall key
        ensures Lookup(tensors, key) == if key == node.staticKey then Some(t) else Lookup(m.tensors, key)
      {
        LookupAfterPut(m.tensors, node.staticKey, t, key);
      }
      hide Lookup, Put, IsDictionary;
    }
  }

  lemma SkipNode(nodes: seq<FxNode>, inputs: seq<Value>, n: nat, m: Maps)
    requires n < |nodes| && Sound(nodes, inputs, n, m) && !IsStatic(nodes, inputs, n)
    ensures Sound(nodes, inputs, n + 1, m)
  {
    hide StaticValue, IsFirst, Names, Stored, HasFirst, HasStaticNode;
    assert NodesKeyed(nodes, inputs, n + 1, m);
    forall name | name in m.keyByNode ensures HasStaticNode(nodes, inputs, n + 1, name) {
      StillStatic(nodes, inputs, n, name);
    }
    forall id | id in m.canonical ensures HasFirst(nodes, inputs, n + 1, m, id) {
      StillNamed(nodes, inputs, n, m, m, id);
    }
  }

  lemma MapsStep(nodes: seq<FxNode>, inputs: seq<Value>, n: nat)
    requires 0 < n <= |nodes| && MapsAfter(nodes, inputs, n).Ok?
    ensures MapsAfter(nodes, inputs, n - 1).Ok?
    ensures var m := MapsAfter(nodes, inputs, n - 1).value;
            MapsAfter(nodes, inputs, n).value
            == if IsStatic(nodes, inputs, n - 1) then Record(m, nodes[n - 1], TensorOf(nodes, inputs, n - 1)) else m
  {
    hide StaticValue, Record;
  }

  lemma {:induction false} MapsAreSound(nodes: seq<FxNode>, inputs: seq<Value>, n: nat)
    requires DistinctNames(nodes) && n <= |nodes| && MapsAfter(nodes, inputs, n).Ok?
    ensures Sound(nodes, inputs, n, MapsAfter(nodes, inputs, n).value)
  {
    hide Sound, Record, DistinctNames, IsStatic, TensorOf, StaticValue;
    if n == 0 {
      EmptyIsSound(nodes, inputs);
    } else {
      MapsStep(nodes, inputs, n);
      hide MapsAfter;
      MapsAreSound(nodes, inputs, n - 1);
      var m := MapsAfter(nodes, inputs, n - 1).value;
      if IsStatic(nodes, inputs, n - 1) {
        RecordIsSound(nodes, inputs, n - 1, m);
      } else {
        SkipNode(nodes, inputs, n - 1, m);
      }
    }
  }

  lemma RecordIsSound(nodes: seq<FxNode>, inputs: seq<Value>, n: nat, m: Maps)
    requires DistinctNames(nodes) && n < |nodes| && Sound(nodes, inputs, n, m) && IsStatic(nodes, inputs, n)
    ensures Sound(nodes, inputs, n + 1, Record(m, nodes[n], TensorOf(nodes, inputs, n)))
  {
    RecordKeyed(nodes, inputs, n, m);
    RecordOnlyStatic(nodes, inputs, n, m);
    RecordNamed(nodes, inputs, n, m);
    RecordStored(m, nodes[n], TensorOf(nodes, inputs, n));
    hide NodesKeyed, OnlyStatic, AllNamed, Stored, Record;
  }

  lemma EmptyIsSound(nodes: seq<FxNode>, inputs: seq<Value>)
    ensures Sound(nodes, inputs, 0, Maps(map[], map[], []))
  {
    hide IsStatic;
  }

  // ---------------------------------------------------------------------------------------
  // Exactly when every node's tensor is in the store
  // ---------------------------------------------------------------------------------------

  /** Different identities get different keys. */
  ghost predicate DistinctKeys(nodes: seq<FxNode>, inputs: seq<Value>) {
    forall i, j :: IsFirst(nodes, inputs, i) && IsFirst(nodes, inputs, j) && i != j ==>
      nodes[i].staticKey != nodes[j].staticKey
  }

  /** The binding of node `i` leads to a tensor with the identity of the node's own. */
  ghost predicate Resolves(c: Captured, i: nat, identity: nat) {
    && i < |c.manifest.nodes| && c.manifest.nodes[i].binding.TensorStore?
    && var found := Lookup(c.tensors, c.manifest.nodes[i].binding.key);
       found.Some? && found.value.identity == identity
  }

  ghost predicate Faithful(nodes: seq<FxNode>, inputs: seq<Value>, c: Captured) {
    forall i :: 0 <= i < |nodes| && IsStatic(nodes, inputs, i) ==> Resolves(c, i, TensorOf(nodes, inputs, i).identity)
  }

  lemma FirstOf(nodes: seq<FxNode>, inputs: seq<Value>, m: Maps, id: nat) returns (i: nat)
    requires Sound(nodes, inputs, |nodes|, m) && id in m.canonical
    ensures i < |nodes| && Names(nodes, inputs, m, id, i)
  {
    assert HasFirst(nodes, inputs, |nodes|, m, id);
    i :| 0 <= i < |nodes| && Names(nodes, inputs, m, id, i);
  }

  lemma BoundTo(nodes: seq<FxNode>, inputs: seq<Value>, c: Captured, i: nat)
    requires DistinctNames(nodes) && Capture(nodes, inputs) == Ok(c) && i < |nodes| && IsStatic(nodes, inputs, i)
    ensures var m := MapsAfter(nodes, inputs, |nodes|).value;
            && Sound(nodes, inputs, |nodes|, m) && c.tensors == m.tensors
            && TensorOf(nodes, inputs, i).identity in m.canonical
            && |c.manifest.nodes| == |nodes|
            && c.manifest.nodes[i].binding == G.TensorStore(m.canonical[TensorOf(nodes, inputs, i).identity])
  {
    MapsAreSound(nodes, inputs, |nodes|);
    hide StaticValue, Lookup, IsFirst, Names, MapsAfter;
  }

  lemma DistinctKeysSuffice(nodes: seq<FxNode>, inputs: seq<Value>, c: Captured, i: nat)
    requires DistinctNames(nodes) && Capture(nodes, inputs) == Ok(c) && DistinctKeys(nodes, inputs)
    requires i < |nodes| && IsStatic(nodes, inputs, i)
    ensures Resolves(c, i, TensorOf(nodes, inputs, i).identity)
  {
    BoundTo(nodes, inputs, c, i);
    var m := MapsAfter(nodes, inputs, |nodes|).value;
    hide StaticValue, Lookup, IsFirst, MapsAfter, Capture;
    var id := TensorOf(nodes, inputs, i).identity;
    var key := m.canonical[id];
    var found := Lookup(c.tensors, key).value.identity;
    var a := FirstOf(nodes, inputs, m, id);
    var b := FirstOf(nodes, inputs, m, found);
    assert nodes[a].staticKey == key == nodes[b].staticKey;
  }

  lemma DistinctKeysNeeded(nodes: seq<FxNode>, inputs: seq<Value>, c: Captured, i: int, j: int)
    requires DistinctNames(nodes) && Capture(nodes, inputs) == Ok(c) && Faithful(nodes, inputs, c)
    requires IsFirst(nodes, inputs, i) && IsFirst(nodes, inputs, j) && i != j
    ensures nodes[i].staticKey != nodes[j].staticKey
  {
    BoundTo(nodes, inputs, c, i);
    BoundTo(nodes, inputs, c, j);
    var m := MapsAfter(nodes, inputs, |nodes|).value;
    assert TensorOf(nodes, inputs, i).identity != TensorOf(nodes, inputs, j).identity;
    KeyOfFirst(nodes, inputs, m, i);
    KeyOfFirst(nodes, inputs, m, j);
    hide StaticValue, Lookup, IsFirst, MapsAfter, Capture, Sound;
    assert Resolves(c, i, TensorOf(nodes, inputs, i).identity);
    assert Resolves(c, j, TensorOf(nodes, inputs, j).identity);
  }

  lemma KeyOfFirst(nodes: seq<FxNode>, inputs: seq<Value>, m: Maps, i: int)
    requires Sound(nodes, inputs, |nodes|, m) && IsFirst(nodes, inputs, i)
    ensures TensorOf(nodes, inputs, i).identity in m.canonical
    ensures m.canonical[TensorOf(nodes, inputs, i).identity] == nodes[i].staticKey
  {
    var id := TensorOf(nodes, inputs, i).identity;
    var a := FirstOf(nodes, inputs, m, id);
    assert a == i;
  }

  /**
   Every static node is bound to its own tensor exactly when no two identities get the same key: the
   static keys of the nodes where identities first appear are all different.
   */
  lemma CaptureIsFaithful(nodes: seq<FxNode>, inputs: seq<Value>, c: Captured)
    requires DistinctNames(nodes) && Capture(nodes, inputs) == Ok(c)
    ensures Faithful(nodes, inputs, c) <==> DistinctKeys(nodes, inputs)
  {
    if DistinctKeys(nodes, inputs) {
      forall i | 0 <= i < |nodes| && IsStatic(nodes, inputs, i)
        ensures Resolves(c, i, TensorOf(nodes, inputs, i).identity)
      {
        DistinctKeysSuffice(nodes, inputs, c, i);
      }
    }
    if Faithful(nodes, inputs, c) {
      forall i, j | IsFirst(nodes, inputs, i) && IsFirst(nodes, inputs, j) && i != j
        ensures nodes[i].staticKey != nodes[j].staticKey
      {
        DistinctKeysNeeded(nodes, inputs, c, i, j);
      }
    }
  }

  /**
   With or without colliding keys the store is a dictionary, and the tensor-store nodes are exactly
   the static ones, each bound to a key that the store has.
   */
  lemma BindingsAreStored(nodes: seq<FxNode>, inputs: seq<Value>, c: Captured, i: nat)
    requires DistinctNames(nodes) && Capture(nodes, inputs) == Ok(c) && i < |nodes|
    ensures IsDictionary(c.tensors) && |c.manifest.nodes| == |nodes|
    ensures c.manifest.nodes[i].binding.TensorStore? <==> IsStatic(nodes, inputs, i)
    ensures c.manifest.nodes[i].binding.TensorStore? ==> Lookup(c.tensors, c.manifest.nodes[i].binding.key).Some?
  {
    MapsAreSound(nodes, inputs, |nodes|);
    var m := MapsAfter(nodes, inputs, |nodes|).value;
    if IsStatic(nodes, inputs, i) {
      BoundTo(nodes, inputs, c, i);
    } else {
      NotKeyed(nodes, inputs, m, i);
    }
  }

  lemma NotKeyed(nodes: seq<FxNode>, inputs: seq<Value>, m: Maps, i: nat)
    requires DistinctNames(nodes) && OnlyStatic(nodes, inputs, |nodes|, m) && i < |nodes| && !IsStatic(nodes, inputs, i)
    ensures nodes[i].node.name !in m.keyByNode
  {
    NoStaticNode(nodes, inputs, i);
    hide HasStaticNode, IsStatic, DistinctNames;
  }

  lemma NoStaticNode(nodes: seq<FxNode>, inputs: seq<Value>, i: nat)
    requires DistinctNames(nodes) && i < |nodes| && !IsStatic(nodes, inputs, i)
    ensures !HasStaticNode(nodes, inputs, |nodes|, nodes[i].node.name)
  {
    hide StaticValue;
  }

  /**
   Two static placeholders whose sources have the same module path under different roots get one key,
   and the first one's node then reads the second tensor.
   */
  lemma CollidingKeysMislead(a: FxNode, b: FxNode, first: Tensor, second: Tensor)
    requires a.kind == Placeholder(true) && b.kind == Placeholder(true)
    requires a.staticKey == b.staticKey && a.node.name != b.node.name && first.identity != second.identity
    ensures var c := Capture([a, b], [Static(first), Static(second)]);
            && c.Ok? && c.value.tensors == [Entry(a.staticKey, second)]
            && |c.value.manifest.nodes| == 2 && c.value.manifest.nodes[0].binding == G.TensorStore(a.staticKey)
            && !Faithful([a, b], [Static(first), Static(second)], c.value)
  {
    var nodes, inputs := [a, b], [Static(first), Static(second)];
    assert PlaceholdersBefore(nodes, 0) == 0 && PlaceholdersBefore(nodes, 1) == 1;
    assert StaticValue(nodes, inputs, 0) == Static(first) && StaticValue(nodes, inputs, 1) == Static(second);
    assert MapsAfter(nodes, inputs, 0) == Ok(Maps(map[], map[], []));
    assert MapsAfter(nodes, inputs, 1).value == Maps(map[first.identity := a.staticKey],
                                                     map[a.node.name := a.staticKey], [Entry(a.staticKey, first)]);
    var m := MapsAfter(nodes, inputs, 2).value;
    assert m.tensors == [Entry(a.staticKey, second)];
    var c := Capture(nodes, inputs).value;
    assert IsStatic(nodes, inputs, 0) && TensorOf(nodes, inputs, 0) == first;
    assert !Resolves(c, 0, first.identity);
  }

  // ---------------------------------------------------------------------------------------
  // The whole capture, field by field
  // ---------------------------------------------------------------------------------------

  function PlaceholdersOf(nodes: seq<FxNode>, i: nat): set<nat>
    requires i <= |nodes|
  {
    set j: nat | j < i && nodes[j].kind.Placeholder?
  }

  lemma {:induction false} PlaceholderCount(nodes: seq<FxNode>, i: nat)
    requires i <= |nodes|
    ensures PlaceholdersBefore(nodes, i) == |PlaceholdersOf(nodes, i)|
  {
    if i > 0 {
      PlaceholderCount(nodes, i - 1);
      var before := PlaceholdersOf(nodes, i - 1);
      assert PlaceholdersOf(nodes, i) == if nodes[i - 1].kind.Placeholder? then before + {i - 1} else before;
    } else {
      assert PlaceholdersOf(nodes, 0) == {};
    }
  }

  /** A node is static exactly when it is an attribute that is a tensor, or a static placeholder whose example is one. */
  lemma StaticExactly(nodes: seq<FxNode>, inputs: seq<Value>, i: nat)
    requires i < |nodes|
    ensures var n, k := nodes[i], |PlaceholdersOf(nodes, i)|;
            && (IsStatic(nodes, inputs, i) <==>
                  || (n.kind.GetAttr? && n.kind.value.Static?)
                  || (n.kind == Placeholder(true) && k < |inputs| && inputs[k].Static?))
            && (IsStatic(nodes, inputs, i) ==>
                  TensorOf(nodes, inputs, i) == if n.kind.GetAttr? then n.kind.value.tensor else inputs[k].tensor)
  {
    PlaceholderCount(nodes, i);
    hide PlaceholdersBefore, PlaceholdersOf;
  }

  /**
   A captured node is the node it was, field by field, but for its binding: to the store exactly if it is
   static, and otherwise as a runtime input exactly if it is a placeholder and as computed if it is not.
   */
  lemma CapturedNode(nodes: seq<FxNode>, inputs: seq<Value>, c: Captured, i: nat)
    requires DistinctNames(nodes) && Capture(nodes, inputs) == Ok(c) && i < |nodes|
    ensures c.manifest.version == 2 && |c.manifest.nodes| == |nodes|
    ensures var n, g := nodes[i].node, c.manifest.nodes[i];
            && g.name == n.name && g.op == n.op && g.target == n.target && g.inputs == n.inputs
            && g.shape == n.shape && g.dtype == n.dtype && g.args == n.args && g.kwargs == n.kwargs
    ensures match c.manifest.nodes[i].binding
            case TensorStore(_) => IsStatic(nodes, inputs, i)
            case Runtime => !IsStatic(nodes, inputs, i) && nodes[i].kind.Placeholder?
            case Computed => !IsStatic(nodes, inputs, i) && !nodes[i].kind.Placeholder?
  {
    BindingsAreStored(nodes, inputs, c, i);
    hide MapsAfter, OutputNames, IsStatic, Lookup;
    assert c.manifest.nodes[i] == Bound(nodes[i], MapsAfter(nodes, inputs, |nodes|).value.keyByNode);
  }

  /** A static node is bound to the static key of the first node whose tensor has the same identity. */
  lemma StaticNodeKey(nodes: seq<FxNode>, inputs: seq<Value>, c: Captured, i: nat, f: int)
    requires DistinctNames(nodes) && Capture(nodes, inputs) == Ok(c) && IsStatic(nodes, inputs, i)
    requires IsFirst(nodes, inputs, f) && TensorOf(nodes, inputs, f).identity == TensorOf(nodes, inputs, i).identity
    ensures |c.manifest.nodes| == |nodes| && c.manifest.nodes[i].binding == G.TensorStore(nodes[f].staticKey)
  {
    BindingsAreStored(nodes, inputs, c, i);
    MapsAreSound(nodes, inputs, |nodes|);
    BoundTo(nodes, inputs, c, i);
    hide MapsAfter, StaticValue, Stored;
    var m := MapsAfter(nodes, inputs, |nodes|).value;
    var id := TensorOf(nodes, inputs, i).identity;
    assert HasFirst(nodes, inputs, |nodes|, m, id);
    var j :| 0 <= j < |nodes| && Names(nodes, inputs, m, id, j);
    OneFirst(nodes, inputs, j, f);
  }

  lemma OneFirst(nodes: seq<FxNode>, inputs: seq<Value>, i: int, j: int)
    requires IsFirst(nodes, inputs, i) && IsFirst(nodes, inputs, j)
    requires TensorOf(nodes, inputs, i).identity == TensorOf(nodes, inputs, j).identity
    ensures i == j
  {
    hide StaticValue;
  }

  /** `o` is the last output node. */
  predicate IsLastOutput(nodes: seq<FxNode>, o: int) {
    0 <= o < |nodes| && nodes[o].kind.Output? && forall i :: o < i < |nodes| ==> !nodes[i].kind.Output?
  }

  /** The outputs of a capture are what its last output node refers to, and none if it has no output node. */
  lemma CapturedOutputs(nodes: seq<FxNode>, inputs: seq<Value>, c: Captured, o: int)
    requires Capture(nodes, inputs) == Ok(c)
    ensures IsLastOutput(nodes, o) ==> c.manifest.outputs == nodes[o].node.inputs
    ensures (forall i :: 0 <= i < |nodes| ==> !nodes[i].kind.Output?) ==> c.manifest.outputs == []
  {
    LastOutputs(nodes, o);
    hide MapsAfter, BoundAll, OutputNames, IsLastOutput;
  }

  lemma {:induction false} LastOutputs(nodes: seq<FxNode>, o: int)
    ensures IsLastOutput(nodes, o) ==> OutputNames(nodes) == nodes[o].node.inputs
    ensures (forall i :: 0 <= i < |nodes| ==> !nodes[i].kind.Output?) ==> OutputNames(nodes) == []
  {
    if nodes != [] && !nodes[|nodes| - 1].kind.Output? {
      LastOutputs(nodes[..|nodes| - 1], o);
    }
  }

  /** A capture fails exactly when a static value is not a tensor, and names the first node that has one. */
  lemma CaptureFails(nodes: seq<FxNode>, inputs: seq<Value>, i: nat)
    requires i < |nodes| && forall j :: 0 <= j < i ==> !StaticValue(nodes, inputs, j).NotTensor?
    ensures StaticValue(nodes, inputs, i).NotTensor? ==> Capture(nodes, inputs) == Err(NotATensor(nodes[i].node.name))
    ensures (forall j :: 0 <= j < |nodes| ==> !StaticValue(nodes, inputs, j).NotTensor?) ==> Capture(nodes, inputs).Ok?
  {
    hide StaticValue;
    if StaticValue(nodes, inputs, i).NotTensor? {
      MapsSucceed(nodes, inputs, i);
      MapsFail(nodes, inputs, i + 1, |nodes|);
    }
    if forall j :: 0 <= j < |nodes| ==> !StaticValue(nodes, inputs, j).NotTensor? {
      MapsSucceed(nodes, inputs, |nodes|);
    }
  }

  lemma {:induction false} MapsSucceed(nodes: seq<FxNode>, inputs: seq<Value>, n: nat)
    requires n <= |nodes| && forall j :: 0 <= j < n ==> !StaticValue(nodes, inputs, j).NotTensor?
    ensures MapsAfter(nodes, inputs, n).Ok?
  {
    hide StaticValue;
    if n > 0 {
      MapsSucceed(nodes, inputs, n - 1);
    }
  }

  /** Node `f` is the last of the first `n` at which a new identity gets `key`. */
  predicate OwnsKey(nodes: seq<FxNode>, inputs: seq<Value>, n: nat, key: Text, f: int) {
    && 0 <= f < n <= |nodes| && IsFirst(nodes, inputs, f) && nodes[f].staticKey == key
    && forall g :: f < g < n && IsFirst(nodes, inputs, g) ==> nodes[g].staticKey != key
  }

  /** No new identity gets `key` at any of the first `n` nodes. */
  predicate NoOwner(nodes: seq<FxNode>, inputs: seq<Value>, n: nat, key: Text)
    requires n <= |nodes|
  {
    forall g :: 0 <= g < n && IsFirst(nodes, inputs, g) ==> nodes[g].staticKey != key
  }

  /** The store holds under each key the very tensor of the last node at which a new identity got that key, and nothing else. */
  lemma StoreHolds(nodes: seq<FxNode>, inputs: seq<Value>, c: Captured, key: Text, f: int)
    requires DistinctNames(nodes) && Capture(nodes, inputs) == Ok(c)
    ensures OwnsKey(nodes, inputs, |nodes|, key, f) ==> Lookup(c.tensors, key) == Some(TensorOf(nodes, inputs, f))
    ensures NoOwner(nodes, inputs, |nodes|, key) ==> Lookup(c.tensors, key) == None
  {
    StoreAfter(nodes, inputs, |nodes|, key, f);
    hide MapsAfter, OwnsKey, NoOwner, IsFirst, Lookup;
  }

  lemma {:induction false} StoreAfter(nodes: seq<FxNode>, inputs: seq<Value>, n: nat, key: Text, f: int)
    requires DistinctNames(nodes) && n <= |nodes| && MapsAfter(nodes, inputs, n).Ok?
    ensures OwnsKey(nodes, inputs, n, key, f) ==>
              Lookup(MapsAfter(nodes, inputs, n).value.tensors, key) == Some(TensorOf(nodes, inputs, f))
    ensures NoOwner(nodes, inputs, n, key) ==> Lookup(MapsAfter(nodes, inputs, n).value.tensors, key) == None
  {
    if n > 0 {
      hide *;
      StoreStep(nodes, inputs, n - 1, key);
      StoreAfter(nodes, inputs, n - 1, key, f);
      OwnersBefore(nodes, inputs, n - 1, key, f);
    } else {
      hide IsFirst;
    }
  }

  lemma OwnersBefore(nodes: seq<FxNode>, inputs: seq<Value>, n: nat, key: Text, f: int)
    requires n < |nodes|
    ensures var last := IsFirst(nodes, inputs, n) && nodes[n].staticKey == key;
            && (OwnsKey(nodes, inputs, n + 1, key, f) ==>
                  if last then f == n else OwnsKey(nodes, inputs, n, key, f))
            && (NoOwner(nodes, inputs, n + 1, key) ==> !last && NoOwner(nodes, inputs, n, key))
  {
    hide IsFirst;
  }

  lemma StoreStep(nodes: seq<FxNode>, inputs: seq<Value>, n: nat, key: Text)
    requires DistinctNames(nodes) && n < |nodes| && MapsAfter(nodes, inputs, n + 1).Ok?
    ensures MapsAfter(nodes, inputs, n).Ok?
    ensures var before, after := MapsAfter(nodes, inputs, n).value.tensors, MapsAfter(nodes, inputs, n + 1).value.tensors;
            Lookup(after, key)
            == if IsFirst(nodes, inputs, n) && nodes[n].staticKey == key then Some(TensorOf(nodes, inputs, n))
                else Lookup(before, key)
  {
    MapsStep(nodes, inputs, n + 1);
    MapsAreSound(nodes, inputs, n);
    hide MapsAfter;
    if IsStatic(nodes, inputs, n) {
      FirstIsNew(nodes, inputs, n, MapsAfter(nodes, inputs, n).value);
      LookupAfterPut(MapsAfter(nodes, inputs, n).value.tensors, nodes[n].staticKey, TensorOf(nodes, inputs, n), key);
      hide IsFirst, Put, Sound;
    }
  }

  lemma FirstIsNew(nodes: seq<FxNode>, inputs: seq<Value>, n: nat, m: Maps)
    requires n < |nodes| && Sound(nodes, inputs, n, m) && IsStatic(nodes, inputs, n)
    ensures IsFirst(nodes, inputs, n) <==> TensorOf(nodes, inputs, n).identity !in m.canonical
  {
    var id := TensorOf(nodes, inputs, n).identity;
    if id in m.canonical {
      assert HasFirst(nodes, inputs, n, m, id);
    } else {
      FreshIdentityIsFirst(nodes, inputs, n, m);
    }
  }
}
