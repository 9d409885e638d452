/**
 Building the target graph of an engine: every captured tensor is bound into an external weight store
 (`bind_external_tensors`), and inputs and outputs get their semantic names (`target_graph` in
 bench/build_gemma4_engine.py). The source has 48 layers; here their number is a parameter.
 */
module TargetGraph {
  import opened Results
  import opened Utf8
  import opened FxGraph
  import opened GraphNames
  import opened FxSerial
  import opened CaptureFx

  const LAYERS := 48

  /** One captured tensor's place in the external store. */
  datatype ExternalTensor = ExternalTensor(key: Text, dtype: DtypeName, shape: seq<int>)

  datatype BuildError =
    | MapMismatch
    | DuplicateTargets
    | NoBinding(key: Text)
    | ShapeDiffers(key: Text)
    | BlankName
    | NoNodes
    | UnknownInput(name: Text)
    | BadIndex(name: Text)
    | WrongOutputCount
    | OutputsNotCovered
    | NoOutputNode
    | DuplicateDiagnostics
    | OutsideNamespace
    | MissingSource
    | AlreadyPresent

  // ---------------------------------------------------------------------------------------
  // Binding into an external store
  // ---------------------------------------------------------------------------------------

  /** The code points `str.strip` removes. */
  predicate IsSpace(c: int) {
    9 <= c <= 13 || 28 <= c <= 32 || c == 0x85 || c == 0xA0 || c == 0x1680 || 0x2000 <= c <= 0x200A
    || c == 0x2028 || c == 0x2029 || c == 0x202F || c == 0x205F || c == 0x3000
  }

  predicate IsBlank(t: Text) {
    forall i :: 0 <= i < |t| ==> IsSpace(t[i])
  }

  /** `tuple(node.get("shape") or ())`. */
  function Dims(shape: Option<seq<int>>): seq<int> {
    match shape
    case None => []
    case Some(dims) => dims
  }

  function KeysOf(entries: seq<Entry>): set<Text> {
    set i | 0 <= i < |entries| :: entries[i].key
  }

  predicate DistinctTargets(bindings: map<Text, ExternalTensor>) {
    forall a, b :: a in bindings && b in bindings && bindings[a].key == bindings[b].key ==> a == b
  }

  /** Why a tensor-store node cannot be bound, if it cannot. */
  function Objection(node: Node, bindings: map<Text, ExternalTensor>): Option<BuildError>
    requires node.binding.TensorStore?
  {
    var key := node.binding.key;
    if key !in bindings then Some(NoBinding(key))
    else if Dims(node.shape) != bindings[key].shape then Some(ShapeDiffers(key))
    else if IsBlank(bindings[key].key) || IsBlank(DtypeNameText(bindings[key].dtype)) then Some(BlankName)
    else None
  }

  function External(node: Node, bindings: map<Text, ExternalTensor>): Node {
    if node.binding.TensorStore? && node.binding.key in bindings then
      var target := bindings[node.binding.key];
      node.(dtype := target.dtype, binding := TensorStore(target.key))
    else node
  }

  function ExternalNodes(nodes: seq<Node>, bindings: map<Text, ExternalTensor>): Result<seq<Node>, BuildError> {
    if nodes == [] then Ok([])
    else
      var n := |nodes| - 1;
      var done :- ExternalNodes(nodes[..n], bindings);
      if nodes[n].binding.TensorStore? && Objection(nodes[n], bindings).Some? then Err(Objection(nodes[n], bindings).value)
      else Ok(done + [External(nodes[n], bindings)])
  }

  function BoundKeys(nodes: seq<Node>): set<Text> {
    set i | 0 <= i < |nodes| && nodes[i].binding.TensorStore? :: nodes[i].binding.key
  }

  function BindExternal(captured: Captured, bindings: map<Text, ExternalTensor>): Result<Captured, BuildError> {
    if KeysOf(captured.tensors) != bindings.Keys then Err(MapMismatch)
    else if !DistinctTargets(bindings) then Err(DuplicateTargets)
    else
      var nodes :- ExternalNodes(captured.manifest.nodes, bindings);
      if BoundKeys(captured.manifest.nodes) != KeysOf(captured.tensors) then Err(NoNodes)
      else Ok(Captured(captured.manifest.(nodes := nodes), []))
  }

  lemma {:induction false} ExternalFails(nodes: seq<Node>, bindings: map<Text, ExternalTensor>, i: nat)
    requires i <= |nodes| && ExternalNodes(nodes[..i], bindings).Err?
    ensures ExternalNodes(nodes, bindings) == ExternalNodes(nodes[..i], bindings)
    decreases |nodes| - i
  {
    if i == |nodes| {
      assert nodes[..i] == nodes;
    } else {
      assert nodes[..i + 1][..i] == nodes[..i];
      ExternalFails(nodes, bindings, i + 1);
    }
  }

  lemma ExternalSnoc(nodes: seq<Node>, bindings: map<Text, ExternalTensor>, i: nat, done: seq<Node>)
    requires i < |nodes| && ExternalNodes(nodes[..i], bindings) == Ok(done)
    ensures var objection := if nodes[i].binding.TensorStore? then Objection(nodes[i], bindings) else None;
            ExternalNodes(nodes[..i + 1], bindings)
            == match objection case Some(e) => Err(e) case None => Ok(done + [External(nodes[i], bindings)])
  {
    hide Objection, External;
    assert nodes[..i + 1][..i] == nodes[..i];
  }

  /** `bind_external_tensors`. */
  method BindExternalTensors(captured: Captured,
                             bindings: map<Text, ExternalTensor>) returns (r: Result<Captured, BuildError>)
    ensures r == BindExternal(captured, bindings)
  {
    hide Objection, External, ExternalNodes, BoundKeys, DistinctTargets, KeysOf;
    var keys := KeysOf(captured.tensors);
    if keys != bindings.Keys {
      return Err(MapMismatch);
    }
    if !DistinctTargets(bindings) {
      return Err(DuplicateTargets);
    }
    var source := captured.manifest.nodes;
    var nodes: seq<Node> := [];
    var rebound: set<Text> := {};
    var i := 0;
    NothingBound(bindings);
    assert source[..0] == [];
    while i < |source|
      invariant i <= |source| && ExternalNodes(source[..i], bindings) == Ok(nodes)
      invariant rebound == BoundKeys(source[..i])
    {
      BoundKeysSnoc(source, i);
      ExternalSnoc(source, bindings, i, nodes);
      if source[i].binding.TensorStore? {
        var objection := Objection(source[i], bindings);
        if objection.Some? {
          ExternalFails(source, bindings, i + 1);
          return Err(objection.value);
        }
        rebound := rebound + {source[i].binding.key};
      }
      nodes := nodes + [External(source[i], bindings)];
      i := i + 1;
    }
    assert source[..|source|] == source;
    if rebound != keys {
      return Err(NoNodes);
    }
    r := Ok(Captured(captured.manifest.(nodes := nodes), []));
  }

  lemma NothingBound(bindings: map<Text, ExternalTensor>)
    ensures ExternalNodes([], bindings) == Ok([]) && BoundKeys([]) == {}
  {
  }

  lemma BoundKeysSnoc(nodes: seq<Node>, i: nat)
    requires i < |nodes|
    ensures BoundKeys(nodes[..i + 1])
         == BoundKeys(nodes[..i]) + if nodes[i].binding.TensorStore? then {nodes[i].binding.key} else {}
  {
    forall key | key in BoundKeys(nodes[..i])
      ensures key in BoundKeys(nodes[..i + 1])
    {
      var j :| 0 <= j < i && nodes[..i][j].binding.TensorStore? && nodes[..i][j].binding.key == key;
      assert nodes[..i + 1][j] == nodes[j];
    }
    if nodes[i].binding.TensorStore? {
      assert nodes[..i + 1][i] == nodes[i];
    }
  }

  // ---------------------------------------------------------------------------------------
  // Semantic names
  // ---------------------------------------------------------------------------------------

  function Decimal(n: nat): (t: Text)
    ensures |t| > 0
  {
    if n < 10 then [48 + n] else Decimal(n / 10) + [48 + n % 10]
  }

  /** The number a text of decimal digits denotes. */
  function ParseDecimal(t: Text): Option<nat> {
    if t == [] || !(48 <= t[|t| - 1] <= 57) then None
    else
      var digit := t[|t| - 1] - 48;
      if |t| == 1 then Some(digit)
      else
        match ParseDecimal(t[..|t| - 1])
        case None => None
        case Some(high) => Some(10 * high + digit)
  }

  /** `cache.layer.<layer>.key` and `cache.layer.<layer>.value`. */
  function CacheName(layer: nat, value: bool): Text {
    Ascii("cache.layer.") + Decimal(layer) + (if value then Ascii(".value") else Ascii(".key"))
  }

  /** The cache name of state number `index`: keys are even, values odd. */
  function StateName(index: nat): Text {
    CacheName(index / 2, index % 2 == 1)
  }

  predicate StartsWith(t: Text, prefix: Text) {
    |prefix| <= |t| && t[..|prefix|] == prefix
  }

  predicate EndsWith(t: Text, suffix: Text) {
    |suffix| <= |t| && t[|t| - |suffix|..] == suffix
  }

  function RemovePrefix(t: Text, prefix: Text): Text {
    if StartsWith(t, prefix) then t[|prefix|..] else t
  }

  function RemoveSuffix(t: Text, suffix: Text): Text {
    if EndsWith(t, suffix) then t[..|t| - |suffix|] else t
  }

  /** `semantic_runtime_name`. */
  function RuntimeName(name: Text): Result<Text, BuildError> {
    if name == Ascii("l_input_ids_") then Ok(Ascii("input_ids"))
    else if name == Ascii("l_position_ids_") then Ok(Ascii("position_ids"))
    else if name == Ascii("l_full_attention_mask_") then Ok(Ascii("full_attention_mask"))
    else if name == Ascii("l_sliding_attention_mask_") then Ok(Ascii("sliding_attention_mask"))
    else if StartsWith(name, Ascii("l_cache_states_")) && EndsWith(name, Ascii("_")) then
      match ParseDecimal(RemoveSuffix(RemovePrefix(name, Ascii("l_cache_states_")), Ascii("_")))
      case None => Err(BadIndex(name))
      case Some(index) => Ok(StateName(index))
    else Err(UnknownInput(name))
  }

  /** The dictionary of the runtime inputs' names. */
  function RuntimeNames(nodes: seq<Node>): Result<map<Text, Text>, BuildError> {
    if nodes == [] then Ok(map[])
    else
      var n := |nodes| - 1;
      var names :- RuntimeNames(nodes[..n]);
      if nodes[n].binding.Runtime? then
        var name :- RuntimeName(nodes[n].name);
        Ok(names[nodes[n].name := name])
      else Ok(names)
  }

  /** `[cache.layer.0.key, cache.layer.0.value, …]`, the first `n` of them. */
  function StateNames(n: nat): (r: seq<Text>)
    ensures |r| == n && forall i :: 0 <= i < n ==> r[i] == StateName(i)
  {
    seq(n, i requires 0 <= i < n => StateName(i))
  }

  /** The state that output `j` of the cache outputs holds: the two last layers come first. */
  function StateOfOutput(layers: nat, j: nat): nat
    requires layers >= 2 && j < 2 * layers
  {
    if j < 2 then 2 * (layers - 1) + j else if j < 4 then 2 * (layers - 2) + (j - 2) else j - 4
  }

  /** `ordered_cache_outputs`. */
  function OrderedNames(layers: nat): (r: seq<Text>)
    requires layers >= 2
    ensures |r| == 2 * layers && forall j :: 0 <= j < 2 * layers ==> r[j] == StateName(StateOfOutput(layers, j))
  {
    [CacheName(layers - 1, false), CacheName(layers - 1, true), CacheName(layers - 2, false), CacheName(layers - 2, true)]
    + StateNames(2 * (layers - 2))
  }

  /** `dict(zip(keys, values))` added to `names`; a later pair replaces an earlier one. */
  function ZipInto(names: map<Text, Text>, keys: seq<Text>, values: seq<Text>): map<Text, Text>
    requires |keys| == |values|
  {
    if keys == [] then names
    else
      var n := |keys| - 1;
      ZipInto(names, keys[..n], values[..n])[keys[n] := values[n]]
  }

  function LogitsName(): Text {
    Ascii("logits")
  }

  function OutputNamesOf(raw: seq<Text>, layers: nat): map<Text, Text>
    requires layers >= 2 && |raw| == 2 + 2 * layers
  {
    ZipInto(map[raw[0] := LogitsName()], raw[2..], OrderedNames(layers))
  }

  function Retained(layers: nat): seq<Text> {
    [LogitsName()] + StateNames(2 * layers)
  }

  function ToRefs(names: seq<Text>): (r: seq<Argument>)
    ensures |r| == |names| && forall i :: 0 <= i < |r| ==> r[i] == NodeRef(names[i])
  {
    seq(|names|, i requires 0 <= i < |names| => NodeRef(names[i]))
  }

  /** The first output node. */
  function OutputIndex(nodes: seq<Node>, from: nat): Option<nat>
    requires from <= |nodes|
    ensures OutputIndex(nodes, from).Some? ==> OutputIndex(nodes, from).value < |nodes|
    decreases |nodes| - from
  {
    if from == |nodes| then None
    else if nodes[from].op == Ascii("output") then Some(from)
    else OutputIndex(nodes, from + 1)
  }

  /** The manifest with `names` as its outputs, and as what its output node returns. */
  function WithOutputs(m: Manifest, outputs: seq<Text>, inputs: seq<Text>): Result<Manifest, BuildError> {
    match OutputIndex(m.nodes, 0)
    case None => Err(NoOutputNode)
    case Some(i) =>
      var node := m.nodes[i].(inputs := inputs, args := [Tuple(ToRefs(inputs))], kwargs := []);
      Ok(Manifest(m.version, m.nodes[i := node], outputs))
  }

  /** `target_graph` after the binding, without diagnostic outputs. */
  function Target(m: Manifest, layers: nat): Result<Manifest, BuildError>
    requires layers >= 2
  {
    var runtime :- RuntimeNames(m.nodes);
    if |m.outputs| != 2 + 2 * layers then Err(WrongOutputCount)
    else
      var outputs := OutputNamesOf(m.outputs, layers);
      if outputs.Values != {LogitsName()} + (set i | 0 <= i < 2 * layers :: StateName(i)) then Err(OutputsNotCovered)
      else WithOutputs(RenameManifest(m, runtime + outputs), Retained(layers), Retained(layers))
  }

  function BuildTarget(captured: Captured, bindings: map<Text, ExternalTensor>, layers: nat): Result<Manifest,
                       BuildError>
    requires layers >= 2
  {
    var rebound :- BindExternal(captured, bindings);
    Target(rebound.manifest, layers)
  }

  // ---------------------------------------------------------------------------------------
  // Diagnostic outputs
  // ---------------------------------------------------------------------------------------

  predicate InNamespace(name: Text) {
    StartsWith(name, Ascii("diagnostic."))
  }

  /** The order of the new names is that of the dictionary, so it is given with it. */
  datatype Renaming = Renaming(from: Text, to: Text)

  function AsMap(renamings: seq<Renaming>): map<Text, Text> {
    ZipInto(map[], Sources(renamings), Targets(renamings))
  }

  function Sources(renamings: seq<Renaming>): (r: seq<Text>)
    ensures |r| == |renamings|
  {
    seq(|renamings|, i requires 0 <= i < |renamings| => renamings[i].from)
  }

  function Targets(renamings: seq<Renaming>): (r: seq<Text>)
    ensures |r| == |renamings|
  {
    seq(|renamings|, i requires 0 <= i < |renamings| => renamings[i].to)
  }

  predicate Distinct(texts: seq<Text>) {
    forall i, j :: 0 <= i < j < |texts| ==> texts[i] != texts[j]
  }

  /** `retain_diagnostic_outputs`; `renamings` is a dictionary, so its sources are distinct. */
  function Retain(m: Manifest, renamings: seq<Renaming>): Result<Manifest, BuildError> {
    var targets := Targets(renamings);
    if renamings == [] then Ok(m)
    else if !Distinct(targets) then Err(DuplicateDiagnostics)
    else if exists i :: 0 <= i < |targets| && !InNamespace(targets[i]) then Err(OutsideNamespace)
    else if exists i :: 0 <= i < |renamings| && renamings[i].from !in NamesOf(m.nodes) then Err(MissingSource)
    else if exists i :: 0 <= i < |targets| && targets[i] in m.outputs then Err(AlreadyPresent)
    else
      var renamed := RenameManifest(m, AsMap(renamings));
      match OutputIndex(renamed.nodes, 0)
      case None => Err(NoOutputNode)
      case Some(i) => WithOutputs(renamed, renamed.outputs + targets, renamed.nodes[i].inputs + targets)
  }

  /** What `retain_diagnostic_hidden_output` retains. */
  function HiddenRenaming(hidden: Text): seq<Renaming> {
    [Renaming(hidden, Ascii("diagnostic.hidden"))]
  }

  function LayerZero(from: string, to: string): Renaming {
    Renaming(Ascii(from), Ascii("diagnostic.layer0.") + Ascii(to))
  }

  /** What `retain_layer_zero_diagnostic_outputs` retains. */
  function LayerZeroRenamings(): seq<Renaming> {
    [LayerZero("hidden_states", "attn_norm"), LayerZero("linear", "q"), LayerZero("query_states_1", "q_norm"),
     LayerZero("query_states_2", "q_pos"), LayerZero("linear_1", "k"), LayerZero("linear_2", "v"),
     LayerZero("key_states_1", "k_norm"), LayerZero("value_states_1", "v_norm"), LayerZero("key_states_2", "k_pos"),
     LayerZero("attn_output_2", "attn_pre_o"), LayerZero("hidden_states_3", "attn_post_norm"),
     LayerZero("hidden_states_4", "attn_out"), LayerZero("hidden_states_5", "ffn_norm"), LayerZero("down_proj", "ffn_out"),
     LayerZero("hidden_states_6", "ffn_post_norm"), LayerZero("hidden_states_7", "pre_scale")]
  }

  /** The two flags at the end of `target_graph`; the hidden state is looked up under its captured name. */
  function Diagnosed(m: Manifest, hidden: Text, retainHidden: bool, retainLayerZero: bool): Result<Manifest,
                     BuildError> {
    var shown :- if retainHidden then Retain(m, HiddenRenaming(hidden)) else Ok(m);
    if retainLayerZero then Retain(shown, LayerZeroRenamings()) else Ok(shown)
  }

  /** `target_graph`. */
  function BuildDiagnosed(captured: Captured, bindings: map<Text, ExternalTensor>, layers: nat,
                          retainHidden: bool, retainLayerZero: bool): Result<Manifest, BuildError>
    requires layers >= 2
  {
    var target :- BuildTarget(captured, bindings, layers);
    BuildHasOutputs(captured, bindings, layers);
    Diagnosed(target, captured.manifest.outputs[1], retainHidden, retainLayerZero)
  }

  lemma BuildHasOutputs(captured: Captured, bindings: map<Text, ExternalTensor>, layers: nat)
    requires layers >= 2 && BuildTarget(captured, bindings, layers).Ok?
    ensures |captured.manifest.outputs| == 2 + 2 * layers
  {
    hide ExternalNodes, RuntimeNames, OutputNamesOf, StateName, WithOutputs, KeysOf, DistinctTargets, BoundKeys;
  }
}
