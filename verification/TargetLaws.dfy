/** What binding into an external store and renaming for the target keep of a captured graph. */
module TargetLaws {
  import opened Results
  import opened Utf8
  import opened FxGraph
  import opened GraphNames
  import opened FxSerial
  import opened FxInputs
  import C = CaptureFx
  import opened TargetGraph

  // ---------------------------------------------------------------------------------------
  // Binding into the external store
  // ---------------------------------------------------------------------------------------

  /** Node `i` has a binding of the captured shape, with a key and a dtype. */
  predicate Bindable(node: Node, bindings: map<Text, ExternalTensor>) {
    node.binding.TensorStore? ==>
      && node.binding.key in bindings && Dims(node.shape) == bindings[node.binding.key].shape
      && !IsBlank(bindings[node.binding.key].key) && !IsBlank(DtypeNameText(bindings[node.binding.key].dtype))
  }

  lemma {:induction false} ExternalNodesAre(nodes: seq<Node>, bindings: map<Text, ExternalTensor>)
    ensures ExternalNodes(nodes, bindings).Ok? <==> forall i :: 0 <= i < |nodes| ==> Bindable(nodes[i], bindings)
    ensures ExternalNodes(nodes, bindings).Ok? ==>
              && |ExternalNodes(nodes, bindings).value| == |nodes|
              && forall i :: 0 <= i < |nodes| ==> ExternalNodes(nodes, bindings).value[i] == External(nodes[i], bindings)
  {
    if nodes != [] {
      hide IsBlank, DtypeNameText;
      ExternalNodesAre(nodes[..|nodes| - 1], bindings);
    }
  }

  /** A captured graph is accepted exactly when the map is a bijection that fits every tensor-store node. */
  lemma BindExternalAccepts(captured: C.Captured, bindings: map<Text, ExternalTensor>)
    ensures BindExternal(captured, bindings).Ok? <==>
              && KeysOf(captured.tensors) == bindings.Keys && DistinctTargets(bindings)
              && (forall i :: 0 <= i < |captured.manifest.nodes| ==> Bindable(captured.manifest.nodes[i], bindings))
              && BoundKeys(captured.manifest.nodes) == KeysOf(captured.tensors)
  {
    hide ExternalNodes, Bindable, KeysOf, BoundKeys, DistinctTargets;
    ExternalNodesAre(captured.manifest.nodes, bindings);
  }

  /** Two nodes are bound to the same external tensor exactly when they were bound to the same captured one. */
  lemma ExternalKeysAreBijective(captured: C.Captured, bindings: map<Text, ExternalTensor>, i: nat, j: nat)
    requires BindExternal(captured, bindings).Ok?
    requires i < |captured.manifest.nodes| && j < |captured.manifest.nodes|
    requires captured.manifest.nodes[i].binding.TensorStore? && captured.manifest.nodes[j].binding.TensorStore?
    ensures var before, after := captured.manifest.nodes, BindExternal(captured, bindings).value.manifest.nodes;
            && |after| == |before| && after[i].binding.TensorStore? && after[j].binding.TensorStore?
            && (after[i].binding.key == after[j].binding.key <==> before[i].binding.key == before[j].binding.key)
  {
    BindExternalAccepts(captured, bindings);
    ExternalNodesAre(captured.manifest.nodes, bindings);
    assert Bindable(captured.manifest.nodes[i], bindings) && Bindable(captured.manifest.nodes[j], bindings);
    hide ExternalNodes, KeysOf, BoundKeys, IsBlank, DtypeNameText;
  }

  /** The external store holds the captured tensors under their new keys. */
  ghost predicate SameTensors<V>(bindings: map<Text, ExternalTensor>, m: Meaning<V>, external: Meaning<V>) {
    && external.runtime == m.runtime && external.apply == m.apply
    && forall key :: key in bindings ==> external.store(bindings[key].key) == m.store(key)
  }

  /** Every node computes from the external store what it computed from the captured tensors. */
  lemma {:induction false} ExternalKeepsValues<V>(nodes: seq<Node>, after: seq<Node>,
                                                  bindings: map<Text, ExternalTensor>, m: Meaning<V>,
                                                  external: Meaning<V>, i: nat)
    requires ExternalNodes(nodes, bindings) == Ok(after) && SameTensors(bindings, m, external) && i < |nodes|
    ensures |after| == |nodes| && Value(after, external, i) == Value(nodes, m, i)
    decreases i, 1, 0
  {
    ExternalNodesAre(nodes, bindings);
    assert Bindable(nodes[i], bindings) && after[i] == External(nodes[i], bindings);
    if nodes[i].binding.Computed? {
      assert after[i] == nodes[i];
      ExternalKeepsOperands(nodes, after, bindings, m, external, i, Operands(nodes[i]));
    }
  }

  lemma {:induction false} ExternalKeepsOperands<V>(nodes: seq<Node>, after: seq<Node>,
                                                    bindings: map<Text, ExternalTensor>, m: Meaning<V>,
                                                    external: Meaning<V>, i: nat, operands: seq<Text>)
    requires ExternalNodes(nodes, bindings) == Ok(after) && SameTensors(bindings, m, external) && i <= |nodes|
    ensures |after| == |nodes| && ValuesOf(after, external, i, operands) == ValuesOf(nodes, m, i, operands)
    decreases i, 0, |operands|
  {
    ExternalNodesAre(nodes, bindings);
    if operands != [] {
      ResolveSameNames(after, nodes, i, operands[0]);
      var r := Resolve(nodes, i, operands[0]);
      if r.Some? {
        ExternalKeepsValues(nodes, after, bindings, m, external, r.value);
      }
      ExternalKeepsOperands(nodes, after, bindings, m, external, i, operands[1..]);
    }
  }

  // ---------------------------------------------------------------------------------------
  // Cache names are different
  // ---------------------------------------------------------------------------------------

  lemma {:induction false} ParseOfDecimal(n: nat)
    ensures ParseDecimal(Decimal(n)) == Some(n)
  {
    if n >= 10 {
      ParseOfDecimal(n / 10);
      var t := Decimal(n);
      assert t[..|t| - 1] == Decimal(n / 10);
    }
  }

  lemma CacheNameEnd(layer: nat, value: bool)
    ensures var t, k := CacheName(layer, value), if value then 6 else 4;
            && |t| == 12 + |Decimal(layer)| + k && t[12..|t| - k] == Decimal(layer)
            && t[|t| - 1] == (if value then 101 else 121)
  {
    hide Decimal;
    assert |Ascii(".key")| == 4 && |Ascii(".value")| == 6 && |Ascii("cache.layer.")| == 12;
    assert Ascii(".key")[3] == 121 && Ascii(".value")[5] == 101;
  }

  lemma CacheNamesAreDifferent(a: nat, x: bool, b: nat, y: bool)
    ensures CacheName(a, x) == CacheName(b, y) <==> a == b && x == y
    ensures CacheName(a, x) != LogitsName()
  {
    CacheNameEnd(a, x);
    CacheNameEnd(b, y);
    ParseOfDecimal(a);
    ParseOfDecimal(b);
    hide CacheName, Decimal, ParseDecimal;
    assert |LogitsName()| == 6;
  }

  lemma StateNamesAreDifferent(i: nat, j: nat)
    ensures StateName(i) == StateName(j) <==> i == j
    ensures StateName(i) != LogitsName()
  {
    CacheNamesAreDifferent(i / 2, i % 2 == 1, j / 2, j % 2 == 1);
    hide CacheName;
  }

  /** Which output holds state `s`: the inverse of `StateOfOutput`. */
  function OutputOfState(layers: nat, s: nat): (j: nat)
    requires layers >= 2 && s < 2 * layers
    ensures j < 2 * layers && StateOfOutput(layers, j) == s
  {
    if s >= 2 * (layers - 1) then s - 2 * (layers - 1)
    else if s >= 2 * (layers - 2) then 2 + (s - 2 * (layers - 2))
    else s + 4
  }

  // ---------------------------------------------------------------------------------------
  // The dictionary of output names
  // ---------------------------------------------------------------------------------------

  /** A key that is zipped gets the value of its last occurrence. */
  lemma {:induction false} ZipLast(names: map<Text, Text>, keys: seq<Text>, values: seq<Text>, k: Text) returns (i: nat)
    requires |keys| == |values| && k in keys
    ensures i < |keys| && keys[i] == k && forall j :: i < j < |keys| ==> keys[j] != k
    ensures k in ZipInto(names, keys, values) && ZipInto(names, keys, values)[k] == values[i]
  {
    var n := |keys| - 1;
    if keys[n] == k {
      i := n;
    } else {
      assert k in keys[..n];
      i := ZipLast(names, keys[..n], values[..n], k);
    }
  }

  lemma {:induction false} ZipOther(names: map<Text, Text>, keys: seq<Text>, values: seq<Text>, k: Text)
    requires |keys| == |values| && k !in keys
    ensures k in ZipInto(names, keys, values) <==> k in names
    ensures k in names ==> ZipInto(names, keys, values)[k] == names[k]
  {
    if keys != [] {
      var n := |keys| - 1;
      assert keys[n] != k && k !in keys[..n];
      ZipOther(names, keys[..n], values[..n], k);
    }
  }

  ghost predicate Covered(raw: seq<Text>, layers: nat)
    requires layers >= 2 && |raw| == 2 + 2 * layers
  {
    OutputNamesOf(raw, layers).Values == {LogitsName()} + (set i | 0 <= i < 2 * layers :: StateName(i))
  }

  /** The logits and the cache outputs are all different values. */
  ghost predicate DistinctOutputs(raw: seq<Text>, layers: nat)
    requires layers >= 2 && |raw| == 2 + 2 * layers
  {
    && (forall i, j :: 2 <= i < j < |raw| ==> raw[i] != raw[j])
    && (forall i :: 2 <= i < |raw| ==> raw[i] != raw[0])
  }

  lemma NameOfOutput(raw: seq<Text>, layers: nat, j: nat)
    requires layers >= 2 && |raw| == 2 + 2 * layers && DistinctOutputs(raw, layers) && j < 2 * layers
    ensures raw[2 + j] in OutputNamesOf(raw, layers)
    ensures OutputNamesOf(raw, layers)[raw[2 + j]] == StateName(StateOfOutput(layers, j))
  {
    var keys := raw[2..];
    assert keys[j] == raw[2 + j];
    var i := ZipLast(map[raw[0] := LogitsName()], keys, OrderedNames(layers), keys[j]);
    assert i == j;
  }

  lemma NameOfLogits(raw: seq<Text>, layers: nat)
    requires layers >= 2 && |raw| == 2 + 2 * layers && DistinctOutputs(raw, layers)
    ensures raw[0] in OutputNamesOf(raw, layers) && OutputNamesOf(raw, layers)[raw[0]] == LogitsName()
  {
    assert forall j :: 0 <= j < |raw[2..]| ==> raw[2..][j] == raw[2 + j];
    ZipOther(map[raw[0] := LogitsName()], raw[2..], OrderedNames(layers), raw[0]);
  }

  lemma DistinctIsCovered(raw: seq<Text>, layers: nat)
    requires layers >= 2 && |raw| == 2 + 2 * layers && DistinctOutputs(raw, layers)
    ensures Covered(raw, layers)
  {
    var names := OutputNamesOf(raw, layers);
    hide StateName, OutputNamesOf, DistinctOutputs, OrderedNames;
    var expected := {LogitsName()} + (set i | 0 <= i < 2 * layers :: StateName(i));
    forall v | v in names.Values
      ensures v in expected
    {
      var k :| k in names && names[k] == v;
      ValuesAreExpected(raw, layers, k);
    }
    forall v | v in expected
      ensures v in names.Values
    {
      if v == LogitsName() {
        NameOfLogits(raw, layers);
      } else {
        var i :| 0 <= i < 2 * layers && StateName(i) == v;
        NameOfOutput(raw, layers, OutputOfState(layers, i));
      }
    }
  }

  lemma ValuesAreExpected(raw: seq<Text>, layers: nat, k: Text)
    requires layers >= 2 && |raw| == 2 + 2 * layers && k in OutputNamesOf(raw, layers)
    ensures var v := OutputNamesOf(raw, layers)[k];
            (k == raw[0] && v == LogitsName()) || exists i :: 0 <= i < 2 * layers && StateName(i) == v
  {
    hide StateName;
    if k in raw[2..] {
      var i := ZipLast(map[raw[0] := LogitsName()], raw[2..], OrderedNames(layers), k);
      assert OutputNamesOf(raw, layers)[k] == StateName(StateOfOutput(layers, i));
      assert 0 <= StateOfOutput(layers, i) < 2 * layers;
    } else {
      ZipOther(map[raw[0] := LogitsName()], raw[2..], OrderedNames(layers), k);
    }
  }

  /** A value that occurs again later leaves the first of its names unused. */
  lemma RepeatedIsUncovered(raw: seq<Text>, layers: nat, a: nat, b: nat)
    requires layers >= 2 && |raw| == 2 + 2 * layers && a < b < 2 * layers && raw[2 + a] == raw[2 + b]
    ensures StateName(StateOfOutput(layers, a)) !in OutputNamesOf(raw, layers).Values
  {
    var names := OutputNamesOf(raw, layers);
    var keys := raw[2..];
    assert keys[a] == raw[2 + a] == keys[b];
    hide StateName;
    forall k | k in names
      ensures names[k] != StateName(StateOfOutput(layers, a))
    {
      if k in keys {
        var i := ZipLast(map[raw[0] := LogitsName()], keys, OrderedNames(layers), k);
        assert i != a;
        StateNamesAreDifferent(StateOfOutput(layers, i), StateOfOutput(layers, a));
      } else {
        ZipOther(map[raw[0] := LogitsName()], keys, OrderedNames(layers), k);
        StateNamesAreDifferent(StateOfOutput(layers, a), 0);
      }
    }
  }

  lemma LogitsAreUncovered(raw: seq<Text>, layers: nat, a: nat)
    requires layers >= 2 && |raw| == 2 + 2 * layers && a < 2 * layers && raw[2 + a] == raw[0]
    ensures LogitsName() !in OutputNamesOf(raw, layers).Values
  {
    var names := OutputNamesOf(raw, layers);
    var keys := raw[2..];
    assert keys[a] == raw[0];
    hide StateName;
    forall k | k in names
      ensures names[k] != LogitsName()
    {
      if k in keys {
        var i := ZipLast(map[raw[0] := LogitsName()], keys, OrderedNames(layers), k);
        StateNamesAreDifferent(StateOfOutput(layers, i), 0);
      } else {
        ZipOther(map[raw[0] := LogitsName()], keys, OrderedNames(layers), k);
      }
    }
  }

  /** The check that the names cover all layers fails exactly when an output is repeated. */
  lemma CoveredExactly(raw: seq<Text>, layers: nat)
    requires layers >= 2 && |raw| == 2 + 2 * layers
    ensures Covered(raw, layers) <==> DistinctOutputs(raw, layers)
  {
    if DistinctOutputs(raw, layers) {
      DistinctIsCovered(raw, layers);
    } else if i: int, j: int :| 2 <= i < j < |raw| && raw[i] == raw[j] {
      hide StateName, OutputNamesOf;
      RepeatedIsUncovered(raw, layers, i - 2, j - 2);
      assert StateName(StateOfOutput(layers, i - 2)) in (set s | 0 <= s < 2 * layers :: StateName(s));
    } else {
      hide StateName, OutputNamesOf;
      var i :| 2 <= i < |raw| && raw[i] == raw[0];
      LogitsAreUncovered(raw, layers, i - 2);
    }
  }
}
