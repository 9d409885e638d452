/** What holds in every run of a capture session. */
module SessionLaws {
  import opened Results
  import opened Utf8
  import opened CaptureFx
  import opened CaptureLaws
  import opened CaptureSession
  import G = FxGraph

  // ---------------------------------------------------------------------------------------
  // The maps index the archive
  // ---------------------------------------------------------------------------------------

  ghost predicate Stores(tensors: seq<Entry>, identity: nat) {
    exists i :: 0 <= i < |tensors| && tensors[i].tensor.identity == identity
  }

  ghost predicate HasKey(tensors: seq<Entry>, key: Text) {
    exists i :: 0 <= i < |tensors| && tensors[i].key == key
  }

  /** An identity is known exactly when the archive stores it, under a key it is stored at. */
  lemma {:induction false} KeysOfStored(tensors: seq<Entry>, identity: nat)
    requires IsDictionary(tensors)
    ensures identity in KeyByIdentity(map[], tensors) <==> Stores(tensors, identity)
    ensures identity in KeyByIdentity(map[], tensors) ==>
              var found := Lookup(tensors, KeyByIdentity(map[], tensors)[identity]);
              found.Some? && found.value.identity == identity
  {
    if tensors != [] {
      var n := |tensors| - 1;
      KeysOfStored(tensors[..n], identity);
      LookupInside(tensors, n);
      if Stores(tensors[..n], identity) && tensors[n].tensor.identity != identity {
        var key := KeyByIdentity(map[], tensors[..n])[identity];
        LookupInit(tensors, key);
      }
    }
  }

  lemma {:induction false} LookupInit(tensors: seq<Entry>, key: Text)
    requires tensors != [] && Lookup(tensors[..|tensors| - 1], key).Some?
    ensures Lookup(tensors, key) == Lookup(tensors[..|tensors| - 1], key)
  {
    var n := |tensors| - 1;
    if tensors[0].key != key {
      assert tensors[..n][1..] == tensors[1..][..n - 1];
      LookupInit(tensors[1..], key);
    }
  }

  lemma {:induction false} KnownKeys(tensors: seq<Entry>, key: Text)
    ensures key in IdentityByKey(map[], tensors) <==> HasKey(tensors, key)
  {
    if tensors != [] {
      KnownKeys(tensors[..|tensors| - 1], key);
    }
  }

  ghost predicate Invariant(s: State) {
    match s.summary
    case None => s.keyByIdentity == map[] && s.identityByKey == map[]
    case Some(count) =>
      && s.archivePath in s.files
      && var sealed := s.files[s.archivePath];
         && IsDictionary(sealed) && count == |sealed|
         && s.keyByIdentity == KeyByIdentity(map[], sealed) && s.identityByKey == IdentityByKey(map[], sealed)
  }

  lemma InitialInvariant(archivePath: Text, files: map<Text, seq<Entry>>)
    ensures Invariant(State(archivePath, files, None, map[], map[]))
  {
  }

  // ---------------------------------------------------------------------------------------
  // One call
  // ---------------------------------------------------------------------------------------

  /** Nothing that was on disk or in a sealed session's maps is changed. */
  ghost predicate Extends(s: State, t: State) {
    && t.archivePath == s.archivePath
    && (forall path :: path in s.files ==> path in t.files && t.files[path] == s.files[path])
    && (s.summary.Some? ==> t.summary == s.summary && t.keyByIdentity == s.keyByIdentity && t.identityByKey == s.identityByKey)
  }

  /** A call keeps the invariant and overwrites no file. */
  lemma BindKeeps(s: State, captured: Captured, path: Text, writes: bool)
    requires Invariant(s) && IsDictionary(captured.tensors)
    ensures var t := Bind(s, captured, path, writes).0; Invariant(t) && Extends(s, t)
  {
    hide KeyByIdentity, IdentityByKey, Canonical, Rebind, IsDictionary;
  }

  /** What the file set may become: the seal, and the link of an accepted graph. */
  lemma FilesOfBind(s: State, captured: Captured, path: Text, writes: bool)
    requires Invariant(s)
    ensures var (t, r) := Bind(s, captured, path, writes);
            var sealed := captured.tensors != [] && s.summary.None? && s.archivePath !in s.files && writes;
            var base := if sealed then s.files[s.archivePath := captured.tensors] else s.files;
            && (t.summary.Some? <==> s.summary.Some? || sealed)
            && (r.Err? || captured.tensors == [] ==> t.files == base)
            && (r.Ok? && captured.tensors != [] ==>
                  && path !in base && t.archivePath in base
                  && t.files == base[path := base[t.archivePath]])
  {
    hide KeyByIdentity, IdentityByKey, Canonical, Rebind;
  }

  // ---------------------------------------------------------------------------------------
  // Where an accepted graph is rebound to
  // ---------------------------------------------------------------------------------------

  /** Where every canonical key comes from. */
  lemma {:induction false} CanonicalKeyOf(s: State, tensors: seq<Entry>, key: Text)
    requires IsDictionary(tensors) && Canonical(s, tensors).Ok?
    ensures key in Canonical(s, tensors).value <==> Lookup(tensors, key).Some?
    ensures key in Canonical(s, tensors).value ==>
              var id := Lookup(tensors, key).value.identity;
              id in s.keyByIdentity && Canonical(s, tensors).value[key] == s.keyByIdentity[id]
  {
    if tensors != [] {
      var n := |tensors| - 1;
      CanonicalKeyOf(s, tensors[..n], key);
      if key == tensors[n].key {
        LookupInside(tensors, n);
      } else {
        LookupButLast(tensors, key);
      }
    }
  }

  lemma {:induction false} LookupButLast(tensors: seq<Entry>, key: Text)
    requires tensors != [] && tensors[|tensors| - 1].key != key
    ensures Lookup(tensors, key) == Lookup(tensors[..|tensors| - 1], key)
  {
    var n := |tensors| - 1;
    if n > 0 && tensors[0].key != key {
      assert tensors[..n][1..] == tensors[1..][..n - 1];
      LookupButLast(tensors[1..], key);
    }
  }

  lemma {:induction false} CanonicalAccepts(s: State, tensors: seq<Entry>)
    ensures Canonical(s, tensors).Ok? <==> forall i :: 0 <= i < |tensors| ==> tensors[i].tensor.identity in s.keyByIdentity
  {
    if tensors != [] {
      CanonicalAccepts(s, tensors[..|tensors| - 1]);
    }
  }

  /** The first tensor in dictionary order with an unknown identity decides which error is raised. */
  lemma {:induction false} CanonicalError(s: State, tensors: seq<Entry>, i: nat)
    requires i < |tensors| && tensors[i].tensor.identity !in s.keyByIdentity
    requires forall j :: 0 <= j < i ==> tensors[j].tensor.identity in s.keyByIdentity
    ensures var key := tensors[i].key;
            Canonical(s, tensors) == Err(if key in s.identityByKey then ChangedStorage(key) else NotPresent(key))
  {
    CanonicalAccepts(s, tensors[..i]);
    assert tensors[..i + 1][..i] == tensors[..i];
    CanonicalFails(s, tensors, i + 1);
  }

  function Rebound(node: G.Node, canonical: map<Text, Text>): G.Node
    requires node.binding.TensorStore? ==> node.binding.key in canonical
  {
    if node.binding.TensorStore? then node.(binding := G.TensorStore(canonical[node.binding.key])) else node
  }

  lemma {:induction false} ReboundNodes(nodes: seq<G.Node>, canonical: map<Text, Text>)
    ensures RebindNodes(nodes, canonical).Ok? <==>
              forall i :: 0 <= i < |nodes| && nodes[i].binding.TensorStore? ==> nodes[i].binding.key in canonical
    ensures RebindNodes(nodes, canonical).Ok? ==>
              && |RebindNodes(nodes, canonical).value| == |nodes|
              && forall i :: 0 <= i < |nodes| ==> RebindNodes(nodes, canonical).value[i] == Rebound(nodes[i], canonical)
  {
    if nodes != [] {
      ReboundNodes(nodes[..|nodes| - 1], canonical);
    }
  }

  /** Node `i` of `captured` and of `rebound` lead to the same tensor, each in its own store. */
  ghost predicate SameTensor(captured: Captured, rebound: Captured, archive: seq<Entry>, i: nat)
    requires i < |captured.manifest.nodes| == |rebound.manifest.nodes|
  {
    var before, after := captured.manifest.nodes[i], rebound.manifest.nodes[i];
    && after == before.(binding := after.binding)
    && (!before.binding.TensorStore? ==> after == before)
    && (before.binding.TensorStore? ==>
          && after.binding.TensorStore?
          && var source, target := Lookup(captured.tensors, before.binding.key), Lookup(archive, after.binding.key);
             source.Some? && target.Some? && target.value.identity == source.value.identity)
  }

  lemma NodeKeepsItsTensor(s: State, captured: Captured, rebound: Captured, i: nat)
    requires Invariant(s) && s.summary.Some? && IsDictionary(captured.tensors)
    requires Canonical(s, captured.tensors).Ok? && Rebind(captured, Canonical(s, captured.tensors).value) == Ok(rebound)
    requires i < |captured.manifest.nodes|
    ensures |rebound.manifest.nodes| == |captured.manifest.nodes|
    ensures SameTensor(captured, rebound, s.files[s.archivePath], i)
  {
    var canonical := Canonical(s, captured.tensors).value;
    ReboundNodes(captured.manifest.nodes, canonical);
    var before := captured.manifest.nodes[i];
    if before.binding.TensorStore? {
      CanonicalKeyOf(s, captured.tensors, before.binding.key);
      KeysOfStored(s.files[s.archivePath], Lookup(captured.tensors, before.binding.key).value.identity);
    }
  }

  /**
   An accepted graph keeps every node but for the key of its binding, and every tensor-store node leads
   to a tensor in its own linked archive with the identity it was captured with.
   */
  lemma AcceptedGraphKeepsItsTensors(s: State, captured: Captured, path: Text, writes: bool, i: nat)
    requires Invariant(s) && IsDictionary(captured.tensors) && captured.tensors != []
    requires Bind(s, captured, path, writes).1.Ok? && i < |captured.manifest.nodes|
    ensures var (t, r) := Bind(s, captured, path, writes);
            && path in t.files && t.archivePath in t.files && t.files[path] == t.files[t.archivePath]
            && r.value.tensorCount == Some(|t.files[path]|)
            && |r.value.captured.manifest.nodes| == |captured.manifest.nodes|
            && SameTensor(captured, r.value.captured, t.files[path], i)
  {
    var sealed := if s.summary.Some? then s else Seal(s, captured.tensors, writes).value;
    assert Invariant(sealed);
    var canonical := Canonical(sealed, captured.tensors).value;
    NodeKeepsItsTensor(sealed, captured, Rebind(captured, canonical).value, i);
    hide Canonical, Rebind, KeyByIdentity, IdentityByKey, IsDictionary, SameTensor;
  }

  // ---------------------------------------------------------------------------------------
  // What a bind returns besides the nodes
  // ---------------------------------------------------------------------------------------

  /** Entry `j` is the last one with its identity. */
  ghost predicate IsLastOf(tensors: seq<Entry>, j: int) {
    0 <= j < |tensors| && forall i :: j < i < |tensors| ==> tensors[i].tensor.identity != tensors[j].tensor.identity
  }

  /** The key an identity is sealed under is that of the last tensor that has it. */
  lemma {:induction false} LastKeyIsSealed(tensors: seq<Entry>, j: nat)
    requires IsLastOf(tensors, j)
    ensures var keys, id := KeyByIdentity(map[], tensors), tensors[j].tensor.identity;
            id in keys && keys[id] == tensors[j].key
    decreases |tensors|
  {
    var n := |tensors| - 1;
    if j < n {
      assert IsLastOf(tensors[..n], j);
      LastKeyIsSealed(tensors[..n], j);
    }
  }

  /** The rebound dictionary holds under `key` the last captured tensor that is rebound to it. */
  ghost predicate HoldsLast(tensors: seq<Entry>, canonical: map<Text, Text>, key: Text, tensor: Tensor, j: int)
    requires forall i :: 0 <= i < |tensors| ==> tensors[i].key in canonical
  {
    && 0 <= j < |tensors| && canonical[tensors[j].key] == key && tensors[j].tensor == tensor
    && forall i :: j < i < |tensors| ==> canonical[tensors[i].key] != key
  }

  lemma {:induction false} ReboundIsDictionary(tensors: seq<Entry>, canonical: map<Text, Text>)
    requires forall i :: 0 <= i < |tensors| ==> tensors[i].key in canonical
    ensures IsDictionary(RebindTensors(tensors, canonical))
  {
    hide IsDictionary;
    if tensors != [] {
      var n := |tensors| - 1;
      ReboundIsDictionary(tensors[..n], canonical);
      PutIsDictionary(RebindTensors(tensors[..n], canonical), canonical[tensors[n].key], tensors[n].tensor);
    } else {
      NoEntries();
    }
  }

  lemma NoEntries()
    ensures IsDictionary([])
  {
  }

  lemma HoldsLastOfMore(tensors: seq<Entry>, canonical: map<Text, Text>, key: Text, tensor: Tensor, n: nat)
    requires n + 1 == |tensors| && forall i :: 0 <= i < |tensors| ==> tensors[i].key in canonical
    ensures canonical[tensors[n].key] == key ==> HoldsLast(tensors, canonical, key, tensors[n].tensor, n)
    ensures canonical[tensors[n].key] != key ==>
              forall j :: HoldsLast(tensors[..n], canonical, key, tensor, j) ==> HoldsLast(tensors, canonical, key, tensor, j)
  {
  }

  lemma {:induction false} ReboundStore(tensors: seq<Entry>, canonical: map<Text, Text>, key: Text)
    requires forall i :: 0 <= i < |tensors| ==> tensors[i].key in canonical
    ensures match Lookup(RebindTensors(tensors, canonical), key)
            case Some(tensor) => exists j :: HoldsLast(tensors, canonical, key, tensor, j)
            case None => forall i :: 0 <= i < |tensors| ==> canonical[tensors[i].key] != key
  {
    if tensors != [] {
      var n := |tensors| - 1;
      var before, e := RebindTensors(tensors[..n], canonical), tensors[n];
      ReboundStore(tensors[..n], canonical, key);
      LookupAfterPut(before, canonical[e.key], e.tensor, key);
      assert RebindTensors(tensors, canonical) == Put(before, canonical[e.key], e.tensor);
      hide *;
      var found := Lookup(before, key);
      HoldsLastOfMore(tensors, canonical, key, if found.Some? then found.value else e.tensor, n);
      assert forall i :: 0 <= i < n ==> tensors[..n][i] == tensors[i];
    }
  }

  /** An entry of the returned dictionary: the last captured tensor of an identity, under an archive key of it. */
  ghost predicate FromCapture(tensors: seq<Entry>, archive: seq<Entry>, e: Entry) {
    && Lookup(archive, e.key).Some? && Lookup(archive, e.key).value.identity == e.tensor.identity
    && exists j :: IsLastOf(tensors, j) && tensors[j].tensor == e.tensor
  }

  /** The canonical keys of a sealed session tell identities apart, as the archive does. */
  lemma CanonicalTells(s: State, tensors: seq<Entry>, i: nat, j: nat)
    requires Invariant(s) && s.summary.Some? && IsDictionary(tensors) && Canonical(s, tensors).Ok?
    requires i < |tensors| && j < |tensors|
    ensures var canonical, archive := Canonical(s, tensors).value, s.files[s.archivePath];
            && (canonical[tensors[i].key] == canonical[tensors[j].key]
                <==> tensors[i].tensor.identity == tensors[j].tensor.identity)
            && Lookup(archive, canonical[tensors[i].key]).Some?
            && Lookup(archive, canonical[tensors[i].key]).value.identity == tensors[i].tensor.identity
  {
    LookupInside(tensors, i);
    LookupInside(tensors, j);
    CanonicalKeyOf(s, tensors, tensors[i].key);
    CanonicalKeyOf(s, tensors, tensors[j].key);
    KeysOfStored(s.files[s.archivePath], tensors[i].tensor.identity);
    KeysOfStored(s.files[s.archivePath], tensors[j].tensor.identity);
    hide Canonical, Lookup, KeyByIdentity, IdentityByKey, IsDictionary, Stores;
  }

  /** Every entry of a rebound dictionary, and an entry for every identity. */
  lemma ReboundEntries(s: State, tensors: seq<Entry>, store: seq<Entry>)
    requires Invariant(s) && s.summary.Some? && IsDictionary(tensors) && Canonical(s, tensors).Ok?
    requires store == RebindTensors(tensors, Canonical(s, tensors).value)
    ensures IsDictionary(store)
    ensures forall k :: 0 <= k < |store| ==> FromCapture(tensors, s.files[s.archivePath], store[k])
    ensures forall j :: IsLastOf(tensors, j) ==> Entry(Canonical(s, tensors).value[tensors[j].key], tensors[j].tensor) in store
  {
    var canonical := Canonical(s, tensors).value;
    ReboundIsDictionary(tensors, canonical);
    forall k | 0 <= k < |store|
      ensures FromCapture(tensors, s.files[s.archivePath], store[k])
    {
      EntryIsFromCapture(s, tensors, store, k);
    }
    forall j | IsLastOf(tensors, j)
      ensures Entry(canonical[tensors[j].key], tensors[j].tensor) in store
    {
      LastIsReturned(s, tensors, store, j);
    }
  }

  lemma EntryIsFromCapture(s: State, tensors: seq<Entry>, store: seq<Entry>, k: nat)
    requires Invariant(s) && s.summary.Some? && IsDictionary(tensors) && Canonical(s, tensors).Ok?
    requires store == RebindTensors(tensors, Canonical(s, tensors).value) && IsDictionary(store) && k < |store|
    ensures FromCapture(tensors, s.files[s.archivePath], store[k])
  {
    var canonical := Canonical(s, tensors).value;
    LookupInside(store, k);
    ReboundStore(tensors, canonical, store[k].key);
    hide Canonical, RebindTensors, Lookup, Invariant, IsDictionary;
    var j :| HoldsLast(tensors, canonical, store[k].key, store[k].tensor, j);
    forall i | j <= i < |tensors|
      ensures i > j ==> tensors[i].tensor.identity != tensors[j].tensor.identity
    {
      CanonicalTells(s, tensors, j, i);
    }
    CanonicalTells(s, tensors, j, j);
    assert IsLastOf(tensors, j);
  }

  lemma LastIsReturned(s: State, tensors: seq<Entry>, store: seq<Entry>, j: nat)
    requires Invariant(s) && s.summary.Some? && IsDictionary(tensors) && Canonical(s, tensors).Ok?
    requires store == RebindTensors(tensors, Canonical(s, tensors).value) && IsLastOf(tensors, j)
    ensures Entry(Canonical(s, tensors).value[tensors[j].key], tensors[j].tensor) in store
  {
    var canonical := Canonical(s, tensors).value;
    var key := canonical[tensors[j].key];
    ReboundStore(tensors, canonical, key);
    hide Canonical, RebindTensors, Lookup, Invariant, IsDictionary;
    var k := LookupFinds(store, key);
    var i :| HoldsLast(tensors, canonical, key, store[k].tensor, i);
    CanonicalTells(s, tensors, i, j);
  }

  /**
   Besides its nodes, an accepted graph keeps its outputs and version. The dictionary that is returned
   with it holds one tensor of every captured identity, the last one captured, under a key at which the
   linked archive stores that identity, and nothing else.
   */
  lemma AcceptedGraphKeepsTheRest(s: State, captured: Captured, path: Text, writes: bool)
    requires Invariant(s) && IsDictionary(captured.tensors) && captured.tensors != []
    requires Bind(s, captured, path, writes).1.Ok?
    ensures var (t, r) := Bind(s, captured, path, writes);
            var rebound := r.value.captured;
            && rebound.manifest.version == captured.manifest.version && rebound.manifest.outputs == captured.manifest.outputs
            && path in t.files && IsDictionary(rebound.tensors)
            && (forall k :: 0 <= k < |rebound.tensors| ==> FromCapture(captured.tensors, t.files[path], rebound.tensors[k]))
            && (forall j :: IsLastOf(captured.tensors, j) ==>
                  exists key :: Entry(key, captured.tensors[j].tensor) in rebound.tensors)
  {
    var sealed := if s.summary.Some? then s else Seal(s, captured.tensors, writes).value;
    assert Invariant(sealed);
    var canonical := Canonical(sealed, captured.tensors).value;
    ReboundEntries(sealed, captured.tensors, RebindTensors(captured.tensors, canonical));
    FilesOfBind(s, captured, path, writes);
    hide Canonical, RebindNodes, RebindTensors, KeyByIdentity, IdentityByKey, IsDictionary, FromCapture, IsLastOf, Invariant;
  }

  /** Every node's key is one of the captured tensors. */
  ghost predicate Closed(captured: Captured) {
    forall i :: 0 <= i < |captured.manifest.nodes| && captured.manifest.nodes[i].binding.TensorStore? ==>
      Lookup(captured.tensors, captured.manifest.nodes[i].binding.key).Some?
  }

  /** A sealed session accepts a graph exactly when it brings no new storage, is closed and has a free path. */
  lemma SealedAcceptsExactly(s: State, captured: Captured, path: Text, writes: bool)
    requires Invariant(s) && s.summary.Some? && IsDictionary(captured.tensors) && captured.tensors != []
    ensures Bind(s, captured, path, writes).1.Ok? <==>
              && (forall i :: 0 <= i < |captured.tensors| ==>
                    Stores(s.files[s.archivePath], captured.tensors[i].tensor.identity))
              && Closed(captured) && path !in s.files
  {
    CanonicalAccepts(s, captured.tensors);
    forall id: nat
      ensures id in s.keyByIdentity <==> Stores(s.files[s.archivePath], id)
    {
      KeysOfStored(s.files[s.archivePath], id);
    }
    if Canonical(s, captured.tensors).Ok? {
      var canonical := Canonical(s, captured.tensors).value;
      ReboundNodes(captured.manifest.nodes, canonical);
      forall key
        ensures key in canonical <==> Lookup(captured.tensors, key).Some?
      {
        CanonicalKeyOf(s, captured.tensors, key);
      }
      hide Canonical, RebindTensors, RebindNodes, KeyByIdentity, IdentityByKey, IsDictionary, Lookup, Stores;
      assert RebindNodes(captured.manifest.nodes, canonical).Ok? <==> Closed(captured);
    }
  }

  /** Node `i` is the first one with a key that no captured tensor has. */
  ghost predicate FirstUnbound(captured: Captured, i: nat, key: Text) {
    && i < |captured.manifest.nodes| && captured.manifest.nodes[i].binding == G.TensorStore(key)
    && Lookup(captured.tensors, key).None?
    && Closed(captured.(manifest := captured.manifest.(nodes := captured.manifest.nodes[..i])))
  }

  lemma RebindStops(s: State, captured: Captured, canonical: map<Text, Text>, i: nat, key: Text)
    requires FirstUnbound(captured, i, key) && forall k :: k in canonical <==> Lookup(captured.tensors, k).Some?
    ensures RebindNodes(captured.manifest.nodes, canonical) == Err(NoCapturedTensor(key))
  {
    var nodes := captured.manifest.nodes;
    ReboundNodes(nodes[..i], canonical);
    hide Lookup;
    assert nodes[..i + 1][..i] == nodes[..i] && nodes[..i + 1][i] == nodes[i];
    RebindFails(nodes, canonical, i + 1);
  }

  /**
   What a rejected graph is told, and that the session is then as before: the first graph, that the
   archive exists or cannot be written; a later one whose storage is all sealed, the first key without a
   tensor, or that the archive of its directory exists.
   */
  lemma BindRejects(s: State, captured: Captured, path: Text, writes: bool, i: nat, key: Text)
    requires Invariant(s) && IsDictionary(captured.tensors) && captured.tensors != []
    ensures s.summary.None? && s.archivePath in s.files ==> Bind(s, captured, path, writes) == (s, Err(ArchiveExists))
    ensures s.summary.None? && s.archivePath !in s.files && !writes ==>
              Bind(s, captured, path, writes) == (s, Err(ArchiveNotWritten))
    ensures s.summary.Some? && Canonical(s, captured.tensors).Ok? && FirstUnbound(captured, i, key) ==>
              Bind(s, captured, path, writes) == (s, Err(NoCapturedTensor(key)))
    ensures s.summary.Some? && Canonical(s, captured.tensors).Ok? && Closed(captured) && path in s.files ==>
              Bind(s, captured, path, writes) == (s, Err(GraphArchiveExists))
    ensures s.summary.Some? && Canonical(s, captured.tensors).Err? ==>
              Bind(s, captured, path, writes) == (s, Err(Canonical(s, captured.tensors).error))
  {
    if s.summary.Some? && Canonical(s, captured.tensors).Ok? {
      var canonical := Canonical(s, captured.tensors).value;
      ReboundNodes(captured.manifest.nodes, canonical);
      forall k
        ensures k in canonical <==> Lookup(captured.tensors, k).Some?
      {
        CanonicalKeyOf(s, captured.tensors, k);
      }
      if FirstUnbound(captured, i, key) {
        RebindStops(s, captured, canonical, i, key);
      }
      hide Canonical, RebindTensors, RebindNodes, KeyByIdentity, IdentityByKey, IsDictionary, Lookup, FirstUnbound;
      assert RebindNodes(captured.manifest.nodes, canonical).Ok? <==> Closed(captured);
    }
  }

  /** The first graph is accepted exactly when the archive can be written, it is closed and its path is free. */
  lemma FirstIsAcceptedExactly(s: State, captured: Captured, path: Text, writes: bool)
    requires Invariant(s) && s.summary.None? && IsDictionary(captured.tensors) && captured.tensors != []
    ensures Bind(s, captured, path, writes).1.Ok? <==>
              s.archivePath !in s.files && writes && Closed(captured) && path !in s.files && path != s.archivePath
  {
    if s.archivePath !in s.files && writes {
      var sealed := Seal(s, captured.tensors, writes).value;
      assert Invariant(sealed);
      forall i | 0 <= i < |captured.tensors|
        ensures Stores(sealed.files[sealed.archivePath], captured.tensors[i].tensor.identity)
      {
        assert captured.tensors[i].tensor.identity == captured.tensors[i].tensor.identity;
      }
      hide Canonical, Rebind, KeyByIdentity, IdentityByKey, IsDictionary, Lookup, Stores, Closed;
      SealedAcceptsExactly(sealed, captured, path, writes);
    }
  }

  // ---------------------------------------------------------------------------------------
  // Runs
  // ---------------------------------------------------------------------------------------

  datatype Call = Call(captured: Captured, path: Text, writes: bool)

  /** The states of a session, from its construction on, with every call's outcome ignored or not. */
  ghost predicate IsRun(archivePath: Text, files: map<Text, seq<Entry>>, states: seq<State>, calls: seq<Call>) {
    && |states| == |calls| + 1 && states[0] == State(archivePath, files, None, map[], map[])
    && (forall i :: 0 <= i < |calls| ==> IsDictionary(calls[i].captured.tensors))
    && forall i :: 0 <= i < |calls| ==>
         states[i + 1] == Bind(states[i], calls[i].captured, calls[i].path, calls[i].writes).0
  }

  lemma {:induction false} RunInvariant(archivePath: Text, files: map<Text, seq<Entry>>, states: seq<State>,
                                        calls: seq<Call>, i: nat)
    requires IsRun(archivePath, files, states, calls) && i < |states|
    ensures Invariant(states[i]) && states[i].archivePath == archivePath
  {
    hide Bind, Invariant, IsDictionary;
    if i == 0 {
      InitialInvariant(archivePath, files);
    } else {
      RunInvariant(archivePath, files, states, calls, i - 1);
      BindKeeps(states[i - 1], calls[i - 1].captured, calls[i - 1].path, calls[i - 1].writes);
    }
  }

  /** The store is sealed at most once; from then on its maps, its archive and every linked archive stay. */
  lemma {:induction false} SealedOnce(archivePath: Text, files: map<Text, seq<Entry>>, states: seq<State>,
                                      calls: seq<Call>, i: nat, j: nat)
    requires IsRun(archivePath, files, states, calls) && i <= j < |states|
    ensures Extends(states[i], states[j])
    decreases j - i
  {
    if i < j {
      SealedOnce(archivePath, files, states, calls, i, j - 1);
      RunInvariant(archivePath, files, states, calls, j - 1);
      hide Bind, Invariant, IsDictionary;
      BindKeeps(states[j - 1], calls[j - 1].captured, calls[j - 1].path, calls[j - 1].writes);
    }
  }

  /** Call `c` was accepted with a graph that has tensors, and linked `path`. */
  ghost predicate Linked(states: seq<State>, calls: seq<Call>, c: int, path: Text)
    requires |states| == |calls| + 1
  {
    && 0 <= c < |calls| && calls[c].path == path && calls[c].captured.tensors != []
    && Bind(states[c], calls[c].captured, calls[c].path, calls[c].writes).1.Ok?
  }

  /** The first `n` calls, accepted or not, linked `path` once or more. */
  ghost predicate LinkedBefore(states: seq<State>, calls: seq<Call>, n: nat, path: Text)
    requires |states| == |calls| + 1
  {
    exists c :: 0 <= c < n && Linked(states, calls, c, path)
  }

  /**
   The disk at any point of a run: the files it started with, the archive once it is sealed, and a link
   for every accepted graph; nothing else, and every file that is not from the start is the archive's copy.
   */
  lemma {:induction false} FilesOfRun(archivePath: Text, files: map<Text, seq<Entry>>, states: seq<State>,
                                      calls: seq<Call>, j: nat, path: Text)
    requires IsRun(archivePath, files, states, calls) && j < |states|
    ensures path in states[j].files <==>
              path in files || (states[j].summary.Some? && path == archivePath) || LinkedBefore(states, calls, j, path)
    ensures path in files ==> path in states[j].files && states[j].files[path] == files[path]
    ensures path in states[j].files && path !in files ==>
              archivePath in states[j].files && states[j].files[path] == states[j].files[archivePath]
  {
    hide Bind, Invariant, IsDictionary;
    if j > 0 {
      var call := calls[j - 1];
      FilesOfRun(archivePath, files, states, calls, j - 1, path);
      RunInvariant(archivePath, files, states, calls, j - 1);
      assert states[j] == Bind(states[j - 1], call.captured, call.path, call.writes).0;
      LinkedMore(states, calls, j - 1, path);
      hide IsRun, LinkedBefore;
      FilesOfBind(states[j - 1], call.captured, call.path, call.writes);
      BindKeeps(states[j - 1], call.captured, call.path, call.writes);
    }
  }

  lemma LinkedMore(states: seq<State>, calls: seq<Call>, n: nat, path: Text)
    requires |states| == |calls| + 1
    ensures LinkedBefore(states, calls, n + 1, path) <==> LinkedBefore(states, calls, n, path) || Linked(states, calls, n, path)
  {
    hide Linked;
  }

  /**
   In every run, every accepted graph resolves through its own archive to what was captured, and still
   does at every later point of the run.
   */
  lemma AcceptedForever(archivePath: Text, files: map<Text, seq<Entry>>, states: seq<State>, calls: seq<Call>, c: nat,
                        j: nat, i: nat)
    requires IsRun(archivePath, files, states, calls) && c < j < |states|
    requires var call := calls[c];
             && call.captured.tensors != [] && i < |call.captured.manifest.nodes|
             && Bind(states[c], call.captured, call.path, call.writes).1.Ok?
    ensures var call := calls[c];
            var rebound := Bind(states[c], call.captured, call.path, call.writes).1.value.captured;
            && call.path in states[j].files
            && |rebound.manifest.nodes| == |call.captured.manifest.nodes|
            && SameTensor(call.captured, rebound, states[j].files[call.path], i)
  {
    var call := calls[c];
    RunInvariant(archivePath, files, states, calls, c);
    SealedOnce(archivePath, files, states, calls, c + 1, j);
    assert states[c + 1] == Bind(states[c], call.captured, call.path, call.writes).0;
    hide Bind, Invariant, IsDictionary, SameTensor;
    AcceptedGraphKeepsItsTensors(states[c], call.captured, call.path, call.writes, i);
  }

  // ---------------------------------------------------------------------------------------
  // Capture and bind together
  // ---------------------------------------------------------------------------------------

  /** Static node `i` of the graph reads its own tensor through the rebound graph. */
  ghost predicate ReadsOwn(nodes: seq<FxNode>, inputs: seq<Value>, rebound: Captured, archive: seq<Entry>, i: nat)
    requires IsStatic(nodes, inputs, i)
  {
    && i < |rebound.manifest.nodes| && rebound.manifest.nodes[i].binding.TensorStore?
    && var found := Lookup(archive, rebound.manifest.nodes[i].binding.key);
       found.Some? && found.value.identity == TensorOf(nodes, inputs, i).identity
  }

  /** A graph as captured is closed, so its bindings never cause a rejection. */
  lemma CapturedIsClosed(nodes: seq<FxNode>, inputs: seq<Value>, c: Captured)
    requires DistinctNames(nodes) && Capture(nodes, inputs) == Ok(c)
    ensures Closed(c) && IsDictionary(c.tensors)
  {
    MapsAreSound(nodes, inputs, |nodes|);
    hide IsStatic, MapsAfter, Lookup, DistinctNames;
    forall i | 0 <= i < |c.manifest.nodes| && c.manifest.nodes[i].binding.TensorStore?
      ensures Lookup(c.tensors, c.manifest.nodes[i].binding.key).Some?
    {
      BindingsAreStored(nodes, inputs, c, i);
    }
  }

  /**
   After capture and an accepted bind every static node reads the tensor it had, for every such node,
   exactly when the capture gave no two identities the same key.
   */
  lemma CapturedThenBound(nodes: seq<FxNode>, inputs: seq<Value>, c: Captured, s: State, path: Text, writes: bool)
    requires DistinctNames(nodes) && Capture(nodes, inputs) == Ok(c) && c.tensors != []
    requires Invariant(s) && Bind(s, c, path, writes).1.Ok?
    ensures var (t, r) := Bind(s, c, path, writes);
            && path in t.files
            && ((forall i: nat :: IsStatic(nodes, inputs, i) ==> ReadsOwn(nodes, inputs, r.value.captured, t.files[path], i))
                <==> DistinctKeys(nodes, inputs))
  {
    var (t, r) := Bind(s, c, path, writes);
    CaptureIsFaithful(nodes, inputs, c);
    CapturedIsClosed(nodes, inputs, c);
    FilesOfBind(s, c, path, writes);
    hide Bind, Capture, Invariant, DistinctKeys, DistinctNames, IsDictionary, Lookup, StaticValue;
    forall i: nat | IsStatic(nodes, inputs, i)
      ensures ReadsOwn(nodes, inputs, r.value.captured, t.files[path], i)
          <==> Resolves(c, i, TensorOf(nodes, inputs, i).identity)
    {
      BindingsAreStored(nodes, inputs, c, i);
      AcceptedGraphKeepsItsTensors(s, c, path, writes, i);
    }
  }
}
