/**
 A capture session (python/llmopt_backend/__init__.py): the first graph writes the shared tensor
 archive, every graph is linked to it and rebound to the keys it was sealed with.
 */
module CaptureSession {
  import opened Results
  import opened Utf8
  import opened CaptureFx
  import G = FxGraph

  datatype BindError =
    | ArchiveExists
    | ArchiveNotWritten
    | ChangedStorage(key: Text)
    | NotPresent(key: Text)
    | NoCapturedTensor(key: Text)
    | GraphArchiveExists
    | ArchiveMissing

  /** What `bind` returns: the rebound graph and the summary of the archive it is linked to. */
  datatype SessionCapture = SessionCapture(captured: Captured, tensorCount: Option<nat>)

  /** The fields of a session, and the archive files on disk with the dictionary each one holds. */
  datatype State = State(
    archivePath: Text,
    files: map<Text, seq<Entry>>,
    summary: Option<nat>,
    keyByIdentity: map<nat, Text>,
    identityByKey: map<Text, nat>)

  // ---------------------------------------------------------------------------------------
  // Sealing
  // ---------------------------------------------------------------------------------------

  function KeyByIdentity(start: map<nat, Text>, tensors: seq<Entry>): map<nat, Text> {
    if tensors == [] then start
    else
      var e := tensors[|tensors| - 1];
      KeyByIdentity(start, tensors[..|tensors| - 1])[e.tensor.identity := e.key]
  }

  function IdentityByKey(start: map<Text, nat>, tensors: seq<Entry>): map<Text, nat> {
    if tensors == [] then start
    else
      var e := tensors[|tensors| - 1];
      IdentityByKey(start, tensors[..|tensors| - 1])[e.key := e.tensor.identity]
  }

  /** `writes` says whether `write_archive` succeeds; when it raises nothing is left behind. */
  function Seal(s: State, tensors: seq<Entry>, writes: bool): Result<State, BindError> {
    if s.archivePath in s.files then Err(ArchiveExists)
    else if !writes then Err(ArchiveNotWritten)
    else Ok(State(s.archivePath, s.files[s.archivePath := tensors], Some(|tensors|),
                  KeyByIdentity(s.keyByIdentity, tensors), IdentityByKey(s.identityByKey, tensors)))
  }

  // ---------------------------------------------------------------------------------------
  // Rebinding
  // ---------------------------------------------------------------------------------------

  function Canonical(s: State, tensors: seq<Entry>): (r: Result<map<Text, Text>, BindError>)
    ensures r.Ok? ==> forall i :: 0 <= i < |tensors| ==> tensors[i].key in r.value
  {
    if tensors == [] then Ok(map[])
    else
      var n := |tensors| - 1;
      var canonical :- Canonical(s, tensors[..n]);
      var e := tensors[n];
      if e.tensor.identity in s.keyByIdentity then Ok(canonical[e.key := s.keyByIdentity[e.tensor.identity]])
      else if e.key in s.identityByKey then Err(ChangedStorage(e.key))
      else Err(NotPresent(e.key))
  }

  function RebindNodes(nodes: seq<G.Node>, canonical: map<Text, Text>): Result<seq<G.Node>, BindError> {
    if nodes == [] then Ok([])
    else
      var n := |nodes| - 1;
      var done :- RebindNodes(nodes[..n], canonical);
      match nodes[n].binding
      case TensorStore(key) =>
        if key in canonical then Ok(done + [nodes[n].(binding := G.TensorStore(canonical[key]))])
        else Err(NoCapturedTensor(key))
      case _ => Ok(done + [nodes[n]])
  }

  function RebindTensors(tensors: seq<Entry>, canonical: map<Text, Text>): seq<Entry>
    requires forall i :: 0 <= i < |tensors| ==> tensors[i].key in canonical
  {
    if tensors == [] then []
    else
      var n := |tensors| - 1;
      Put(RebindTensors(tensors[..n], canonical), canonical[tensors[n].key], tensors[n].tensor)
  }

  function Rebind(captured: Captured, canonical: map<Text, Text>): Result<Captured, BindError>
    requires forall i :: 0 <= i < |captured.tensors| ==> captured.tensors[i].key in canonical
  {
    var nodes :- RebindNodes(captured.manifest.nodes, canonical);
    Ok(Captured(captured.manifest.(nodes := nodes), RebindTensors(captured.tensors, canonical)))
  }

  // ---------------------------------------------------------------------------------------
  // One call
  // ---------------------------------------------------------------------------------------

  function Link(s: State, rebound: Captured, path: Text): (State, Result<SessionCapture, BindError>) {
    if path in s.files then (s, Err(GraphArchiveExists))
    else if s.archivePath !in s.files then (s, Err(ArchiveMissing))
    else (s.(files := s.files[path := s.files[s.archivePath]]), Ok(SessionCapture(rebound, s.summary)))
  }

  function BindSealed(s: State, captured: Captured, path: Text): (State, Result<SessionCapture, BindError>) {
    match Canonical(s, captured.tensors)
    case Err(e) => (s, Err(e))
    case Ok(canonical) =>
      match Rebind(captured, canonical)
      case Err(e) => (s, Err(e))
      case Ok(rebound) => Link(s, rebound, path)
  }

  /** The state and the outcome of `bind` for the graph directory whose archive would be `path`. */
  function Bind(s: State, captured: Captured, path: Text, writes: bool): (State, Result<SessionCapture, BindError>) {
    if captured.tensors == [] then (s, Ok(SessionCapture(captured, None)))
    else if s.summary.Some? then BindSealed(s, captured, path)
    else
      match Seal(s, captured.tensors, writes)
      case Err(e) => (s, Err(e))
      case Ok(sealed) => BindSealed(sealed, captured, path)
  }

  // ---------------------------------------------------------------------------------------
  // The session with its mutable fields
  // ---------------------------------------------------------------------------------------

  class Session {
    const archivePath: Text
    var files: map<Text, seq<Entry>>
    var summary: Option<nat>
    var keyByIdentity: map<nat, Text>
    var identityByKey: map<Text, nat>

    ghost function Value(): State
      reads this
    {
      State(archivePath, files, summary, keyByIdentity, identityByKey)
    }

    constructor (archivePath: Text, files: map<Text, seq<Entry>>)
      ensures Value() == State(archivePath, files, None, map[], map[])
    {
      this.archivePath := archivePath;
      this.files := files;
      summary := None;
      keyByIdentity := map[];
      identityByKey := map[];
    }

    /** `_seal`. */
    method SealArchive(tensors: seq<Entry>, writes: bool) returns (r: Option<BindError>)
      modifies this
      ensures match Seal(old(Value()), tensors, writes)
              case Err(e) => r == Some(e) && Value() == old(Value())
              case Ok(sealed) => r == None && Value() == sealed
    {
      if archivePath in files {
        return Some(ArchiveExists);
      }
      if !writes {
        return Some(ArchiveNotWritten);
      }
      files := files[archivePath := tensors];
      summary := Some(|tensors|);
      var i := 0;
      while i < |tensors|
        modifies this`keyByIdentity, this`identityByKey
        invariant i <= |tensors|
        invariant keyByIdentity == KeyByIdentity(old(keyByIdentity), tensors[..i])
        invariant identityByKey == IdentityByKey(old(identityByKey), tensors[..i])
      {
        assert tensors[..i + 1][..i] == tensors[..i];
        var identity := tensors[i].tensor.identity;
        keyByIdentity := keyByIdentity[identity := tensors[i].key];
        identityByKey := identityByKey[tensors[i].key := identity];
        i := i + 1;
      }
      assert tensors[..|tensors|] == tensors;
      r := None;
    }

    /** `_canonical_keys`. */
    method CanonicalKeys(tensors: seq<Entry>) returns (r: Result<map<Text, Text>, BindError>)
      ensures r == Canonical(Value(), tensors)
    {
      var canonical: map<Text, Text> := map[];
      var i := 0;
      while i < |tensors|
        invariant i <= |tensors| && Canonical(Value(), tensors[..i]) == Ok(canonical)
      {
        assert tensors[..i + 1][..i] == tensors[..i];
        var key, identity := tensors[i].key, tensors[i].tensor.identity;
        if identity !in keyByIdentity {
          var error := if key in identityByKey then ChangedStorage(key) else NotPresent(key);
          assert Canonical(Value(), tensors[..i + 1]) == Err(error);
          CanonicalFails(Value(), tensors, i + 1);
          return Err(error);
        }
        canonical := canonical[key := keyByIdentity[identity]];
        i := i + 1;
      }
      assert tensors[..|tensors|] == tensors;
      r := Ok(canonical);
    }

    /** `bind`. */
    method BindGraph(captured: Captured, path: Text, writes: bool) returns (r: Result<SessionCapture, BindError>)
      modifies this
      ensures (Value(), r) == Bind(old(Value()), captured, path, writes)
    {
      hide Canonical, RebindNodes, RebindTensors, KeyByIdentity, IdentityByKey;
      if captured.tensors == [] {
        return Ok(SessionCapture(captured, None));
      }
      if summary.None? {
        var failed := SealArchive(captured.tensors, writes);
        if failed.Some? {
          return Err(failed.value);
        }
      }
      var keys := CanonicalKeys(captured.tensors);
      if keys.Err? {
        return Err(keys.error);
      }
      var rebound := RebindGraph(captured, keys.value);
      if rebound.Err? {
        return Err(rebound.error);
      }
      if path in files {
        return Err(GraphArchiveExists);
      }
      if archivePath !in files {
        return Err(ArchiveMissing);
      }
      files := files[path := files[archivePath]];
      r := Ok(SessionCapture(rebound.value, summary));
    }
  }

  lemma {:induction false} CanonicalFails(s: State, tensors: seq<Entry>, i: nat)
    requires i <= |tensors| && Canonical(s, tensors[..i]).Err?
    ensures Canonical(s, tensors) == Canonical(s, tensors[..i])
    decreases |tensors| - i
  {
    if i == |tensors| {
      assert tensors[..i] == tensors;
    } else {
      assert tensors[..i + 1][..i] == tensors[..i];
      CanonicalFails(s, tensors, i + 1);
    }
  }

  lemma {:induction false} RebindFails(nodes: seq<G.Node>, canonical: map<Text, Text>, i: nat)
    requires i <= |nodes| && RebindNodes(nodes[..i], canonical).Err?
    ensures RebindNodes(nodes, canonical) == RebindNodes(nodes[..i], canonical)
    decreases |nodes| - i
  {
    if i == |nodes| {
      assert nodes[..i] == nodes;
    } else {
      assert nodes[..i + 1][..i] == nodes[..i];
      RebindFails(nodes, canonical, i + 1);
    }
  }

  /** `_rebind`. */
  method RebindGraph(captured: Captured, canonical: map<Text, Text>) returns (r: Result<Captured, BindError>)
    requires forall i :: 0 <= i < |captured.tensors| ==> captured.tensors[i].key in canonical
    ensures r == Rebind(captured, canonical)
  {
    var source := captured.manifest.nodes;
    var nodes: seq<G.Node> := [];
    var i := 0;
    while i < |source|
      invariant i <= |source| && RebindNodes(source[..i], canonical) == Ok(nodes)
    {
      assert source[..i + 1][..i] == source[..i];
      var node := source[i];
      if node.binding.TensorStore? {
        if node.binding.key !in canonical {
          RebindFails(source, canonical, i + 1);
          return Err(NoCapturedTensor(node.binding.key));
        }
        node := node.(binding := G.TensorStore(canonical[node.binding.key]));
      }
      nodes := nodes + [node];
      i := i + 1;
    }
    assert source[..|source|] == source;
    var tensors := RebindStore(captured.tensors, canonical);
    r := Ok(Captured(captured.manifest.(nodes := nodes), tensors));
  }

  /** The dictionary comprehension at the end of `_rebind`. */
  method RebindStore(source: seq<Entry>, canonical: map<Text, Text>) returns (tensors: seq<Entry>)
    requires forall i :: 0 <= i < |source| ==> source[i].key in canonical
    ensures tensors == RebindTensors(source, canonical)
  {
    tensors := [];
    var i := 0;
    while i < |source|
      invariant i <= |source| && tensors == RebindTensors(source[..i], canonical)
    {
      assert source[..i + 1][..i] == source[..i];
      tensors := Put(tensors, canonical[source[i].key], source[i].tensor);
      i := i + 1;
    }
    assert source[..|source|] == source;
  }
}
