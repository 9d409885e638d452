/** The build steps of bench/build_gemma4_engine.py that assign into a manifest. */
module TargetBuild {
  import opened Results
  import opened Utf8
  import opened FxGraph
  import opened GraphNames
  import opened FxSerial
  import opened TargetGraph
  import C = CaptureFx

  /** A manifest dictionary, whose outputs and output node are replaced in place. */
  class ManifestObject {
    const version: int
    var nodes: seq<Node>
    var outputs: seq<Text>

    ghost function Value(): Manifest
      reads this
    {
      Manifest(version, nodes, outputs)
    }

    constructor (m: Manifest)
      ensures Value() == m
    {
      version := m.version;
      nodes := m.nodes;
      outputs := m.outputs;
    }

    /** `next(node for node in nodes if node["op"] == "output")`. */
    method FindOutput() returns (index: Option<nat>)
      ensures index == OutputIndex(nodes, 0)
    {
      var i := 0;
      while i < |nodes|
        invariant i <= |nodes| && OutputIndex(nodes, i) == OutputIndex(nodes, 0)
      {
        if nodes[i].op == Ascii("output") {
          return Some(i);
        }
        i := i + 1;
      }
      index := None;
    }

    /** Replaces the outputs of the manifest and what its output node returns. */
    method Return(names: seq<Text>, inputs: seq<Text>) returns (done: bool)
      modifies this
      ensures done <==> WithOutputs(old(Value()), names, inputs).Ok?
      ensures done ==> Value() == WithOutputs(old(Value()), names, inputs).value
      ensures !done ==> nodes == old(nodes)
    {
      outputs := names;
      var index := FindOutput();
      if index.None? {
        return false;
      }
      var i := index.value;
      nodes := nodes[i := nodes[i].(inputs := inputs, args := [Tuple(ToRefs(inputs))], kwargs := [])];
      done := true;
    }
  }

  /** The dictionary comprehension over the runtime nodes. */
  method SemanticNames(nodes: seq<Node>) returns (r: Result<map<Text, Text>, BuildError>)
    ensures r == RuntimeNames(nodes)
  {
    hide RuntimeName, RuntimeNames;
    var names: map<Text, Text> := map[];
    var i := 0;
    NothingNamed(nodes);
    while i < |nodes|
      invariant i <= |nodes| && RuntimeNames(nodes[..i]) == Ok(names)
    {
      OneMoreName(nodes, i);
      if nodes[i].binding.Runtime? {
        var name := RuntimeName(nodes[i].name);
        if name.Err? {
          RuntimeNamesFail(nodes, i + 1);
          return Err(name.error);
        }
        names := names[nodes[i].name := name.value];
      }
      i := i + 1;
    }
    assert nodes[..|nodes|] == nodes;
    r := Ok(names);
  }

  lemma NothingNamed(nodes: seq<Node>)
    ensures RuntimeNames(nodes[..0]) == Ok(map[])
  {
  }

  lemma OneMoreName(nodes: seq<Node>, i: nat)
    requires i < |nodes| && RuntimeNames(nodes[..i]).Ok?
    ensures RuntimeNames(nodes[..i + 1])
         == if !nodes[i].binding.Runtime? then RuntimeNames(nodes[..i])
            else match RuntimeName(nodes[i].name)
                 case Err(e) => Err(e)
                 case Ok(name) => Ok(RuntimeNames(nodes[..i]).value[nodes[i].name := name])
  {
    hide RuntimeName;
    assert nodes[..i + 1][..i] == nodes[..i];
  }

  lemma {:induction false} RuntimeNamesFail(nodes: seq<Node>, i: nat)
    requires i <= |nodes| && RuntimeNames(nodes[..i]).Err?
    ensures RuntimeNames(nodes) == RuntimeNames(nodes[..i])
    decreases |nodes| - i
  {
    hide RuntimeName;
    if i == |nodes| {
      assert nodes[..i] == nodes;
    } else {
      assert nodes[..i + 1][..i] == nodes[..i];
      RuntimeNamesFail(nodes, i + 1);
    }
  }

  /** `output_names.update(dict(zip(…)))`. */
  method NameOutputs(raw: seq<Text>, layers: nat) returns (names: map<Text, Text>)
    requires layers >= 2 && |raw| == 2 + 2 * layers
    ensures names == OutputNamesOf(raw, layers)
  {
    hide StateName, LogitsName, OrderedNames, ZipInto;
    var ordered := OrderedNames(layers);
    names := map[raw[0] := LogitsName()];
    ghost var start, keys := names, raw[2..];
    var i := 0;
    ZipNothing(start, keys, ordered);
    while i < |ordered|
      invariant i <= |ordered| && names == ZipInto(start, keys[..i], ordered[..i])
    {
      ZipOneMore(start, keys, ordered, i);
      names := names[raw[2 + i] := ordered[i]];
      i := i + 1;
    }
    assert keys[..i] == keys && ordered[..i] == ordered;
  }

  lemma ZipNothing(start: map<Text, Text>, keys: seq<Text>, values: seq<Text>)
    ensures ZipInto(start, keys[..0], values[..0]) == start
  {
  }

  lemma ZipOneMore(start: map<Text, Text>, keys: seq<Text>, values: seq<Text>, i: nat)
    requires i < |keys| == |values|
    ensures ZipInto(start, keys[..i + 1], values[..i + 1]) == ZipInto(start, keys[..i], values[..i])[keys[i] := values[i]]
  {
    assert keys[..i + 1][..i] == keys[..i] && values[..i + 1][..i] == values[..i];
  }

  /** `target_graph` on the bound manifest. */
  method RenameForTarget(m: Manifest, layers: nat) returns (r: Result<Manifest, BuildError>)
    requires layers >= 2
    ensures r == Target(m, layers)
  {
    hide RuntimeNames, OutputNamesOf, StateName, RenameManifest, WithOutputs, Retained;
    var runtime := SemanticNames(m.nodes);
    if runtime.Err? {
      return Err(runtime.error);
    }
    if |m.outputs| != 2 + 2 * layers {
      return Err(WrongOutputCount);
    }
    var names := NameOutputs(m.outputs, layers);
    if names.Values != {LogitsName()} + (set i | 0 <= i < 2 * layers :: StateName(i)) {
      return Err(OutputsNotCovered);
    }
    var manifest := new ManifestObject(RenameManifest(m, runtime.value + names));
    var done := manifest.Return(Retained(layers), Retained(layers));
    r := if done then Ok(Manifest(manifest.version, manifest.nodes, manifest.outputs)) else Err(NoOutputNode);
    OnlyNoOutputNode(RenameManifest(m, runtime.value + names), Retained(layers), Retained(layers));
  }

  lemma OnlyNoOutputNode(m: Manifest, outputs: seq<Text>, inputs: seq<Text>)
    ensures WithOutputs(m, outputs, inputs).Err? ==> WithOutputs(m, outputs, inputs) == Err(NoOutputNode)
    ensures WithOutputs(m, outputs, inputs).Err? <==> OutputIndex(m.nodes, 0).None?
  {
  }

  /** `retain_diagnostic_outputs`. */
  method RetainDiagnosticOutputs(m: Manifest, renamings: seq<Renaming>) returns (r: Result<Manifest, BuildError>)
    ensures r == Retain(m, renamings)
  {
    hide RenameManifest, WithOutputs, AsMap, NamesOf, Distinct, InNamespace, OutputIndex;
    if renamings == [] {
      return Ok(m);
    }
    var targets := Targets(renamings);
    if !Distinct(targets) {
      return Err(DuplicateDiagnostics);
    }
    if exists i :: 0 <= i < |targets| && !InNamespace(targets[i]) {
      return Err(OutsideNamespace);
    }
    var existing := NamesOf(m.nodes);
    if exists i :: 0 <= i < |renamings| && renamings[i].from !in existing {
      return Err(MissingSource);
    }
    if exists i :: 0 <= i < |targets| && targets[i] in m.outputs {
      return Err(AlreadyPresent);
    }
    var renamed := RenameManifest(m, AsMap(renamings));
    var manifest := new ManifestObject(renamed);
    var index := manifest.FindOutput();
    if index.None? {
      return Err(NoOutputNode);
    }
    var inputs := manifest.nodes[index.value].inputs + targets;
    OnlyNoOutputNode(renamed, manifest.outputs + targets, inputs);
    var done := manifest.Return(manifest.outputs + targets, inputs);
    r := Ok(Manifest(manifest.version, manifest.nodes, manifest.outputs));
  }

  /** `target_graph`. */
  method BuildTargetGraph(captured: C.Captured, bindings: map<Text, ExternalTensor>, layers: nat,
                          retainHidden: bool, retainLayerZero: bool) returns (r: Result<Manifest, BuildError>)
    requires layers >= 2
    ensures r == BuildDiagnosed(captured, bindings, layers, retainHidden, retainLayerZero)
  {
    hide BindExternal, Target, Retain, HiddenRenaming, LayerZeroRenamings;
    var rebound := BindExternalTensors(captured, bindings);
    if rebound.Err? {
      return Err(rebound.error);
    }
    r := RenameForTarget(rebound.value.manifest, layers);
    if r.Err? {
      return;
    }
    BuildHasOutputs(captured, bindings, layers);
    var hidden := captured.manifest.outputs[1];
    if retainHidden {
      r := RetainDiagnosticOutputs(r.value, HiddenRenaming(hidden));
      if r.Err? {
        return;
      }
    }
    if retainLayerZero {
      r := RetainDiagnosticOutputs(r.value, LayerZeroRenamings());
    }
  }
}
