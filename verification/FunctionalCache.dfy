/**
 The functional key/value cache of bench/gemma4_mtp_capture.py. A tensor is the sequence of its rows
 along the concatenated axis.
 */
module FunctionalCache {
  import opened Results

  /** One call of `update` by a layer. */
  datatype Update<R> = Update(layer: nat, key: seq<R>, value: seq<R>)

  datatype Contents<R> = Contents(keys: seq<seq<R>>, values: seq<seq<R>>)

  datatype CacheError = OddStates | LayerNotPopulated

  // ---------------------------------------------------------------------------------------
  // State tuples
  // ---------------------------------------------------------------------------------------

  function Evens<T>(s: seq<T>): seq<T> {
    if s == [] then [] else [s[0]] + if |s| == 1 then [] else Evens(s[2..])
  }

  function Odds<T>(s: seq<T>): seq<T> {
    if |s| <= 1 then [] else [s[1]] + Odds(s[2..])
  }

  /** `item for pair in zip(keys, values) for item in pair`. */
  function Interleave<T>(keys: seq<T>, values: seq<T>): seq<T> {
    if keys == [] || values == [] then [] else [keys[0], values[0]] + Interleave(keys[1..], values[1..])
  }

  /** Splitting a state and interleaving it again is the identity. */
  lemma {:induction false} InterleaveSplit<T>(s: seq<T>)
    requires |s| % 2 == 0
    ensures |Evens(s)| == |Odds(s)| == |s| / 2
    ensures Interleave(Evens(s), Odds(s)) == s
  {
    if s != [] {
      InterleaveSplit(s[2..]);
      assert Evens(s)[1..] == Evens(s[2..]) && Odds(s)[1..] == Odds(s[2..]);
    }
  }

  lemma {:induction false} SplitInterleave<T>(keys: seq<T>, values: seq<T>)
    requires |keys| == |values|
    ensures |Interleave(keys, values)| == 2 * |keys|
    ensures Evens(Interleave(keys, values)) == keys && Odds(Interleave(keys, values)) == values
  {
    if keys != [] {
      SplitInterleave(keys[1..], values[1..]);
      var s := Interleave(keys, values);
      assert s[2..] == Interleave(keys[1..], values[1..]);
    }
  }

  /** Where each tensor is in the state: keys at even, values at odd positions. */
  lemma {:induction false} InterleaveAt<T>(keys: seq<T>, values: seq<T>, l: nat)
    requires |keys| == |values| && l < |keys|
    ensures |Interleave(keys, values)| == 2 * |keys|
    ensures Interleave(keys, values)[2 * l] == keys[l] && Interleave(keys, values)[2 * l + 1] == values[l]
  {
    hide Interleave;
    InterleaveStep(keys, values);
    if l > 0 {
      InterleaveAt(keys[1..], values[1..], l - 1);
      PairedAt(keys[0], values[0], Interleave(keys[1..], values[1..]), l);
    } else {
      InterleaveLength(keys[1..], values[1..]);
    }
  }

  lemma InterleaveStep<T>(keys: seq<T>, values: seq<T>)
    requires |keys| == |values| > 0
    ensures Interleave(keys, values) == [keys[0], values[0]] + Interleave(keys[1..], values[1..])
  {
  }

  lemma {:induction false} InterleaveLength<T>(keys: seq<T>, values: seq<T>)
    requires |keys| == |values|
    ensures |Interleave(keys, values)| == 2 * |keys|
  {
    if keys != [] {
      InterleaveLength(keys[1..], values[1..]);
    }
  }

  lemma PairedAt<T>(key: T, value: T, rest: seq<T>, l: nat)
    requires 0 < l && 2 * l - 1 < |rest|
    ensures ([key, value] + rest)[2 * l] == rest[2 * (l - 1)]
    ensures ([key, value] + rest)[2 * l + 1] == rest[2 * (l - 1) + 1]
  {
  }

  // ---------------------------------------------------------------------------------------
  // Updates
  // ---------------------------------------------------------------------------------------

  function Updated<R>(c: Contents<R>, u: Update<R>): Contents<R>
    requires u.layer < |c.keys| == |c.values|
  {
    Contents(c.keys[u.layer := c.keys[u.layer] + u.key], c.values[u.layer := c.values[u.layer] + u.value])
  }

  ghost predicate InRange<R>(updates: seq<Update<R>>, layers: nat) {
    forall i :: 0 <= i < |updates| ==> updates[i].layer < layers
  }

  function UpdatedAll<R>(c: Contents<R>, updates: seq<Update<R>>): (r: Contents<R>)
    requires |c.keys| == |c.values| && InRange(updates, |c.keys|)
    decreases |updates|
    ensures |r.keys| == |r.values| == |c.keys|
  {
    if updates == [] then c else UpdatedAll(Updated(c, updates[0]), updates[1..])
  }

  /** Every key that the updates pass for `layer`, in order. */
  function KeysFor<R>(updates: seq<Update<R>>, layer: nat): seq<R> {
    if updates == [] then []
    else (if updates[0].layer == layer then updates[0].key else []) + KeysFor(updates[1..], layer)
  }

  function ValuesFor<R>(updates: seq<Update<R>>, layer: nat): seq<R> {
    if updates == [] then []
    else (if updates[0].layer == layer then updates[0].value else []) + ValuesFor(updates[1..], layer)
  }

  /** A layer gains exactly what is passed for it, and no other layer changes. */
  lemma {:induction false} UpdatesAppend<R>(c: Contents<R>, updates: seq<Update<R>>, layer: nat)
    requires |c.keys| == |c.values| && InRange(updates, |c.keys|) && layer < |c.keys|
    ensures UpdatedAll(c, updates).keys[layer] == c.keys[layer] + KeysFor(updates, layer)
    ensures UpdatedAll(c, updates).values[layer] == c.values[layer] + ValuesFor(updates, layer)
    decreases |updates|
  {
    if updates == [] {
      assert c.keys[layer] + [] == c.keys[layer] && c.values[layer] + [] == c.values[layer];
    } else {
      var u := updates[0];
      var next := Updated(c, u);
      assert InRange(updates[1..], |c.keys|);
      UpdatesAppend(next, updates[1..], layer);
      if u.layer == layer {
        Reassociate(c.keys[layer], u.key, KeysFor(updates[1..], layer));
        Reassociate(c.values[layer], u.value, ValuesFor(updates[1..], layer));
      } else {
        assert [] + KeysFor(updates[1..], layer) == KeysFor(updates[1..], layer);
        assert [] + ValuesFor(updates[1..], layer) == ValuesFor(updates[1..], layer);
      }
    }
  }

  lemma {:induction false} KeysConcat<R>(a: seq<Update<R>>, b: seq<Update<R>>, layer: nat)
    ensures KeysFor(a + b, layer) == KeysFor(a, layer) + KeysFor(b, layer)
  {
    if a == [] {
      assert a + b == b;
    } else {
      KeysConcat(a[1..], b, layer);
      assert (a + b)[1..] == a[1..] + b;
      Reassociate(if a[0].layer == layer then a[0].key else [], KeysFor(a[1..], layer), KeysFor(b, layer));
    }
  }

  lemma {:induction false} ValuesConcat<R>(a: seq<Update<R>>, b: seq<Update<R>>, layer: nat)
    ensures ValuesFor(a + b, layer) == ValuesFor(a, layer) + ValuesFor(b, layer)
  {
    if a == [] {
      assert a + b == b;
    } else {
      ValuesConcat(a[1..], b, layer);
      assert (a + b)[1..] == a[1..] + b;
      Reassociate(if a[0].layer == layer then a[0].value else [], ValuesFor(a[1..], layer), ValuesFor(b, layer));
    }
  }

  lemma ForConcat<R>(a: seq<Update<R>>, b: seq<Update<R>>, layer: nat)
    ensures KeysFor(a + b, layer) == KeysFor(a, layer) + KeysFor(b, layer)
    ensures ValuesFor(a + b, layer) == ValuesFor(a, layer) + ValuesFor(b, layer)
  {
    KeysConcat(a, b, layer);
    ValuesConcat(a, b, layer);
  }

  // ---------------------------------------------------------------------------------------
  // The prefill cache
  // ---------------------------------------------------------------------------------------

  datatype Slots<R> = Slots(keys: seq<Option<seq<R>>>, values: seq<Option<seq<R>>>)

  /** An empty cache keeps only the last update of a layer: it replaces instead of appending. */
  function Filled<R>(s: Slots<R>, updates: seq<Update<R>>): (r: Slots<R>)
    requires |s.keys| == |s.values| && InRange(updates, |s.keys|)
    ensures |r.keys| == |r.values| == |s.keys|
  {
    if updates == [] then s
    else
      var n := |updates| - 1;
      var t := Filled(s, updates[..n]);
      Slots(t.keys[updates[n].layer := Some(updates[n].key)], t.values[updates[n].layer := Some(updates[n].value)])
  }

  function Unfilled<R>(layers: nat): (s: Slots<R>)
    ensures |s.keys| == |s.values| == layers
    ensures forall i :: 0 <= i < layers ==> s.keys[i] == None && s.values[i] == None
  {
    Slots(seq(layers, _ => None), seq(layers, _ => None))
  }

  predicate AllFilled<R>(s: Slots<R>) {
    && (forall i :: 0 <= i < |s.keys| ==> s.keys[i].Some?)
    && (forall i :: 0 <= i < |s.values| ==> s.values[i].Some?)
  }

  function Opened<R>(slots: seq<Option<seq<R>>>): (r: seq<seq<R>>)
    requires forall i :: 0 <= i < |slots| ==> slots[i].Some?
    ensures |r| == |slots|
  {
    seq(|slots|, i requires 0 <= i < |slots| => slots[i].value)
  }

  /** The state tuple that a prefill over `updates` returns. */
  function Prefill<R>(layers: nat, updates: seq<Update<R>>): Result<seq<seq<R>>, CacheError>
    requires InRange(updates, layers)
  {
    var s := Filled(Unfilled(layers), updates);
    if AllFilled(s) then Ok(Interleave(Opened(s.keys), Opened(s.values))) else Err(LayerNotPopulated)
  }

  /** The state tuple that one decode forward returns for the previous one. */
  function Decode<R>(state: seq<seq<R>>, updates: seq<Update<R>>): Result<seq<seq<R>>, CacheError>
    requires InRange(updates, |state| / 2)
  {
    if |state| % 2 != 0 then Err(OddStates)
    else
      InterleaveSplit(state);
      var c := UpdatedAll(Contents(Evens(state), Odds(state)), updates);
      Ok(Interleave(c.keys, c.values))
  }

  // ---------------------------------------------------------------------------------------
  // The classes
  // ---------------------------------------------------------------------------------------

  /** `FunctionalCache`: its whole state is supplied as a tuple and taken out as one. */
  class Cache<R> {
    var keys: seq<seq<R>>
    var values: seq<seq<R>>

    ghost function Value(): Contents<R>
      reads this
    {
      Contents(keys, values)
    }

    ghost predicate Valid()
      reads this
    {
      |keys| == |values|
    }

    constructor (states: seq<seq<R>>)
      requires |states| % 2 == 0
      ensures Valid() && keys == Evens(states) && values == Odds(states) && |keys| == |states| / 2
    {
      keys := Evens(states);
      values := Odds(states);
      new;
      InterleaveSplit(states);
    }

    method Append(u: Update<R>) returns (key: seq<R>, value: seq<R>)
      requires Valid() && u.layer < |keys|
      modifies this
      ensures Valid() && Value() == Updated(old(Value()), u)
      ensures key == keys[u.layer] && value == values[u.layer]
    {
      key := keys[u.layer] + u.key;
      value := values[u.layer] + u.value;
      keys := keys[u.layer := key];
      values := values[u.layer := value];
    }

    method State() returns (state: seq<seq<R>>)
      requires Valid()
      ensures state == Interleave(keys, values)
    {
      state := [];
      var i := 0;
      while i < |keys|
        invariant i <= |keys| && state + Interleave(keys[i..], values[i..]) == Interleave(keys, values)
      {
        ghost var before := state;
        state := state + [keys[i], values[i]];
        assert keys[i..][1..] == keys[i + 1..] && values[i..][1..] == values[i + 1..];
        assert before + ([keys[i], values[i]] + Interleave(keys[i + 1..], values[i + 1..]))
            == state + Interleave(keys[i + 1..], values[i + 1..]);
        i := i + 1;
      }
      assert state + [] == state;
    }
  }

  /** `EmptyFunctionalCache`. */
  class EmptyCache<R> {
    var keys: seq<Option<seq<R>>>
    var values: seq<Option<seq<R>>>

    ghost function Value(): Slots<R>
      reads this
    {
      Slots(keys, values)
    }

    constructor (layers: nat)
      ensures Value() == Unfilled(layers)
    {
      keys := seq(layers, _ => None);
      values := seq(layers, _ => None);
    }

    method Set(u: Update<R>)
      requires u.layer < |keys| == |values|
      modifies this
      ensures Value() == Slots(old(keys)[u.layer := Some(u.key)], old(values)[u.layer := Some(u.value)])
    {
      keys := keys[u.layer := Some(u.key)];
      values := values[u.layer := Some(u.value)];
    }
  }

  /** A forward of the prefill wrapper, whose model makes `updates`. */
  method PrefillForward<R>(layers: nat, updates: seq<Update<R>>) returns (r: Result<seq<seq<R>>, CacheError>)
    requires InRange(updates, layers)
    ensures r == Prefill(layers, updates)
  {
    var cache := new EmptyCache<R>(layers);
    var i := 0;
    assert updates[..0] == [];
    while i < |updates|
      invariant i <= |updates| && InRange(updates[..i], layers)
      invariant cache.Value() == Filled(Unfilled(layers), updates[..i])
    {
      assert updates[..i + 1][..i] == updates[..i];
      cache.Set(updates[i]);
      i := i + 1;
    }
    assert updates[..|updates|] == updates;
    if exists l :: 0 <= l < |cache.keys| && cache.keys[l].None? {
      return Err(LayerNotPopulated);
    }
    if exists l :: 0 <= l < |cache.values| && cache.values[l].None? {
      return Err(LayerNotPopulated);
    }
    r := Ok(Interleave(Opened(cache.keys), Opened(cache.values)));
  }

  /** A forward of the decode wrapper, which rebuilds the cache from the states it is given. */
  method DecodeForward<R>(states: seq<seq<R>>, updates: seq<Update<R>>) returns (r: Result<seq<seq<R>>, CacheError>)
    requires InRange(updates, |states| / 2)
    ensures r == Decode(states, updates)
  {
    if |states| % 2 != 0 {
      return Err(OddStates);
    }
    var cache := new Cache<R>(states);
    ghost var start := cache.Value();
    var i := 0;
    assert updates[0..] == updates;
    while i < |updates|
      invariant i <= |updates| && cache.Valid() && |cache.keys| == |states| / 2
      invariant InRange(updates[i..], |cache.keys|)
      invariant UpdatedAll(cache.Value(), updates[i..]) == UpdatedAll(start, updates)
    {
      assert updates[i..][1..] == updates[i + 1..];
      var _, _ := cache.Append(updates[i]);
      i := i + 1;
    }
    var state := cache.State();
    r := Ok(state);
  }

  // ---------------------------------------------------------------------------------------
  // Prefill and any number of decodes
  // ---------------------------------------------------------------------------------------

  /** The states after the forwards in turn, each from the state the one before returned. */
  function DecodeAll<R>(state: seq<seq<R>>, forwards: seq<seq<Update<R>>>): (r: seq<seq<R>>)
    requires |state| % 2 == 0 && forall i :: 0 <= i < |forwards| ==> InRange(forwards[i], |state| / 2)
    ensures |r| == |state|
    decreases |forwards|
  {
    if forwards == [] then state
    else
      DecodeLength(state, forwards[0]);
      DecodeAll(Decode(state, forwards[0]).value, forwards[1..])
  }

  lemma DecodeLength<R>(state: seq<seq<R>>, updates: seq<Update<R>>)
    requires |state| % 2 == 0 && InRange(updates, |state| / 2)
    ensures Decode(state, updates).Ok? && |Decode(state, updates).value| == |state|
  {
    InterleaveSplit(state);
    var c := UpdatedAll(Contents(Evens(state), Odds(state)), updates);
    SplitInterleave(c.keys, c.values);
  }

  function Flatten<T>(parts: seq<seq<T>>): seq<T> {
    if parts == [] then [] else parts[0] + Flatten(parts[1..])
  }

  /** Slot `2 * layer` of a state, and `2 * layer + 1`, after one forward. */
  lemma DecodeAppends<R>(state: seq<seq<R>>, updates: seq<Update<R>>, layer: nat)
    requires |state| % 2 == 0 && InRange(updates, |state| / 2) && layer < |state| / 2
    ensures |Decode(state, updates).value| == |state|
    ensures Decode(state, updates).value[2 * layer] == state[2 * layer] + KeysFor(updates, layer)
    ensures Decode(state, updates).value[2 * layer + 1] == state[2 * layer + 1] + ValuesFor(updates, layer)
  {
    DecodeLength(state, updates);
    InterleaveSplit(state);
    var start := Contents(Evens(state), Odds(state));
    var c := UpdatedAll(start, updates);
    UpdatesAppend(start, updates, layer);
    hide UpdatedAll, KeysFor, ValuesFor, Evens, Odds, Interleave;
    InterleaveAt(start.keys, start.values, layer);
    InterleaveAt(c.keys, c.values, layer);
  }

  /**
   Over any number of decode forwards every layer holds its first content followed by everything
   passed to `update` for it, in order; nothing passed for another layer gets in.
   */
  lemma {:induction false} DecodesConcatenate<R>(state: seq<seq<R>>, forwards: seq<seq<Update<R>>>, layer: nat)
    requires |state| % 2 == 0 && forall i :: 0 <= i < |forwards| ==> InRange(forwards[i], |state| / 2)
    requires layer < |state| / 2
    decreases |forwards|
    ensures DecodeAll(state, forwards)[2 * layer] == state[2 * layer] + KeysFor(Flatten(forwards), layer)
    ensures DecodeAll(state, forwards)[2 * layer + 1] == state[2 * layer + 1] + ValuesFor(Flatten(forwards), layer)
  {
    if forwards == [] {
      assert state[2 * layer] + [] == state[2 * layer] && state[2 * layer + 1] + [] == state[2 * layer + 1];
    } else {
      var next := Decode(state, forwards[0]).value;
      DecodeLength(state, forwards[0]);
      DecodeAppends(state, forwards[0], layer);
      assert forall i :: 0 <= i < |forwards[1..]| ==> forwards[1..][i] == forwards[i + 1];
      DecodesConcatenate(next, forwards[1..], layer);
      hide Decode;
      ForConcat(forwards[0], Flatten(forwards[1..]), layer);
      Reassociate(state[2 * layer], KeysFor(forwards[0], layer), KeysFor(Flatten(forwards[1..]), layer));
      Reassociate(state[2 * layer + 1], ValuesFor(forwards[0], layer), ValuesFor(Flatten(forwards[1..]), layer));
    }
  }

  lemma Reassociate<R>(a: seq<R>, b: seq<R>, c: seq<R>)
    ensures (a + b) + c == a + (b + c)
  {
  }

  /** The last update of a layer. */
  ghost predicate IsLast<R>(updates: seq<Update<R>>, layer: nat, i: int) {
    && 0 <= i < |updates| && updates[i].layer == layer
    && forall j :: i < j < |updates| ==> updates[j].layer != layer
  }

  ghost predicate Touched<R>(updates: seq<Update<R>>, layer: nat) {
    exists j :: 0 <= j < |updates| && updates[j].layer == layer
  }

  lemma IsLastInPrefix<R>(updates: seq<Update<R>>, layer: nat, i: int)
    requires IsLast(updates, layer, i) && i < |updates| - 1
    ensures updates[|updates| - 1].layer != layer
    ensures IsLast(updates[..|updates| - 1], layer, i) && updates[..|updates| - 1][i] == updates[i]
  {
  }

  lemma {:induction false} FilledLast<R>(s: Slots<R>, updates: seq<Update<R>>, layer: nat, i: nat)
    requires |s.keys| == |s.values| && InRange(updates, |s.keys|) && layer < |s.keys|
    requires IsLast(updates, layer, i)
    ensures i < |updates|
    ensures Filled(s, updates).keys[layer] == Some(updates[i].key)
    ensures Filled(s, updates).values[layer] == Some(updates[i].value)
  {
    var n := |updates| - 1;
    FilledSnoc(s, updates, layer);
    hide Filled;
    if i < n {
      IsLastInPrefix(updates, layer, i);
      FilledLast(s, updates[..n], layer, i);
    }
  }

  lemma {:induction false} FilledNever<R>(s: Slots<R>, updates: seq<Update<R>>, layer: nat)
    requires |s.keys| == |s.values| && InRange(updates, |s.keys|) && layer < |s.keys| && !Touched(updates, layer)
    ensures Filled(s, updates).keys[layer] == s.keys[layer] && Filled(s, updates).values[layer] == s.values[layer]
  {
    if updates != [] {
      var n := |updates| - 1;
      assert updates[n].layer != layer;
      assert forall i :: 0 <= i < n ==> updates[..n][i] == updates[i];
      FilledNever(s, updates[..n], layer);
      FilledSnoc(s, updates, layer);
      hide Filled;
    }
  }

  /** The last update decides its own layer and no other. */
  lemma FilledSnoc<R>(s: Slots<R>, updates: seq<Update<R>>, layer: nat)
    requires |s.keys| == |s.values| && InRange(updates, |s.keys|) && layer < |s.keys| && updates != []
    ensures var last, t := updates[|updates| - 1], Filled(s, updates[..|updates| - 1]);
            && Filled(s, updates).keys[layer] == (if last.layer == layer then Some(last.key) else t.keys[layer])
            && Filled(s, updates).values[layer] == (if last.layer == layer then Some(last.value) else t.values[layer])
  {
  }

  lemma {:induction false} LastExists<R>(updates: seq<Update<R>>, layer: nat) returns (i: int)
    requires exists j :: 0 <= j < |updates| && updates[j].layer == layer
    ensures IsLast(updates, layer, i)
  {
    var n := |updates| - 1;
    if updates[n].layer == layer {
      i := n;
    } else {
      var j :| 0 <= j < |updates| && updates[j].layer == layer;
      assert updates[..n][j].layer == layer;
      i := LastExists(updates[..n], layer);
    }
  }

  lemma FilledExactly<R>(layers: nat, updates: seq<Update<R>>, l: nat)
    requires InRange(updates, layers) && l < layers
    ensures Filled(Unfilled(layers), updates).keys[l].Some? <==> Touched(updates, l)
    ensures Filled(Unfilled(layers), updates).values[l].Some? <==> Touched(updates, l)
  {
    hide Filled;
    if Touched(updates, l) {
      var i := LastExists(updates, l);
      FilledLast(Unfilled(layers), updates, l, i);
    } else {
      FilledNever(Unfilled(layers), updates, l);
    }
  }

  /** A prefill succeeds exactly when every layer is updated. */
  lemma PrefillAccepts<R>(layers: nat, updates: seq<Update<R>>)
    requires InRange(updates, layers)
    ensures Prefill(layers, updates).Ok? <==> forall l :: 0 <= l < layers ==> Touched(updates, l)
    ensures Prefill(layers, updates).Ok? ==> |Prefill(layers, updates).value| == 2 * layers
  {
    var s := Filled(Unfilled(layers), updates);
    forall l | 0 <= l < layers
      ensures s.keys[l].Some? <==> Touched(updates, l)
      ensures s.values[l].Some? <==> Touched(updates, l)
    {
      FilledExactly(layers, updates, l);
    }
    hide Filled, Touched, Interleave, Unfilled;
    if AllFilled(s) {
      SplitInterleave(Opened(s.keys), Opened(s.values));
    }
  }

  /** After a prefill each layer holds its last update, not what came before it. */
  lemma PrefillKeepsLast<R>(layers: nat, updates: seq<Update<R>>, l: nat, last: int)
    requires InRange(updates, layers) && Prefill(layers, updates).Ok? && l < layers && IsLast(updates, l, last)
    ensures |Prefill(layers, updates).value| == 2 * layers
    ensures Prefill(layers, updates).value[2 * l] == updates[last].key
    ensures Prefill(layers, updates).value[2 * l + 1] == updates[last].value
  {
    PrefillAccepts(layers, updates);
    var s := Filled(Unfilled(layers), updates);
    FilledLast(Unfilled(layers), updates, l, last);
    hide Filled, Touched, Interleave, Unfilled;
    InterleaveAt(Opened(s.keys), Opened(s.values), l);
  }

  /**
   A whole generation: the keys of a layer are everything that was ever passed for it, exactly when the
   prefill's updates of that layer before its last one were empty; a prefill replaces, a decode appends.
   */
  lemma GenerationConcatenates<R>(layers: nat, prefill: seq<Update<R>>, forwards: seq<seq<Update<R>>>, layer: nat,
                                  last: int)
    requires InRange(prefill, layers) && Prefill(layers, prefill).Ok? && layer < layers && IsLast(prefill, layer, last)
    requires forall i :: 0 <= i < |forwards| ==> InRange(forwards[i], layers)
    ensures |Prefill(layers, prefill).value| == 2 * layers
    ensures var final := DecodeAll(Prefill(layers, prefill).value, forwards);
            && final[2 * layer] == prefill[last].key + KeysFor(Flatten(forwards), layer)
            && final[2 * layer + 1] == prefill[last].value + ValuesFor(Flatten(forwards), layer)
            && (final[2 * layer] == KeysFor(prefill + Flatten(forwards), layer) <==> KeysFor(prefill[..last], layer) == [])
            && (final[2 * layer + 1] == ValuesFor(prefill + Flatten(forwards), layer) <==> ValuesFor(prefill[..last], layer) == [])
  {
    hide *;
    FinalState(layers, prefill, forwards, layer, last);
    var rest := Flatten(forwards);
    PassedFor(prefill, rest, layer, last);
    Cancel(KeysFor(prefill[..last], layer), prefill[last].key, KeysFor(rest, layer));
    Cancel(ValuesFor(prefill[..last], layer), prefill[last].value, ValuesFor(rest, layer));
  }

  lemma FinalState<R>(layers: nat, prefill: seq<Update<R>>, forwards: seq<seq<Update<R>>>, layer: nat, last: int)
    requires InRange(prefill, layers) && Prefill(layers, prefill).Ok? && layer < layers && IsLast(prefill, layer, last)
    requires forall i :: 0 <= i < |forwards| ==> InRange(forwards[i], layers)
    ensures |Prefill(layers, prefill).value| == 2 * layers && 0 <= last < |prefill|
    ensures DecodeAll(Prefill(layers, prefill).value, forwards)[2 * layer]
         == prefill[last].key + KeysFor(Flatten(forwards), layer)
    ensures DecodeAll(Prefill(layers, prefill).value, forwards)[2 * layer + 1]
         == prefill[last].value + ValuesFor(Flatten(forwards), layer)
  {
    hide *;
    LastInside(prefill, layer, last);
    PrefillKeepsLast(layers, prefill, layer, last);
    Halved(|Prefill(layers, prefill).value|, layers);
    DecodesConcatenate(Prefill(layers, prefill).value, forwards, layer);
  }

  lemma LastInside<R>(updates: seq<Update<R>>, layer: nat, i: int)
    requires IsLast(updates, layer, i)
    ensures 0 <= i < |updates|
  {
  }

  lemma Halved(length: nat, layers: nat)
    requires length == 2 * layers
    ensures length % 2 == 0 && length / 2 == layers
  {
  }

  /** Everything passed for a layer, around the last update of the prefill. */
  lemma PassedFor<R>(prefill: seq<Update<R>>, rest: seq<Update<R>>, layer: nat, last: int)
    requires IsLast(prefill, layer, last)
    ensures 0 <= last < |prefill|
    ensures KeysFor(prefill + rest, layer) == (KeysFor(prefill[..last], layer) + prefill[last].key) + KeysFor(rest, layer)
    ensures ValuesFor(prefill + rest, layer)
         == (ValuesFor(prefill[..last], layer) + prefill[last].value) + ValuesFor(rest, layer)
  {
    hide *;
    LastInside(prefill, layer, last);
    ForConcat(prefill, rest, layer);
    LastKeys(prefill, layer, last);
  }

  lemma Cancel<R>(a: seq<R>, b: seq<R>, c: seq<R>)
    ensures b + c == (a + b) + c <==> a == []
  {
    if a != [] {
      assert |(a + b) + c| != |b + c|;
    } else {
      assert a + b == b;
    }
  }

  lemma {:induction false} NoneFor<R>(updates: seq<Update<R>>, layer: nat)
    requires forall i :: 0 <= i < |updates| ==> updates[i].layer != layer
    ensures KeysFor(updates, layer) == [] && ValuesFor(updates, layer) == []
  {
    if updates != [] {
      NoneFor(updates[1..], layer);
    }
  }

  lemma LastKeys<R>(updates: seq<Update<R>>, layer: nat, last: int)
    requires IsLast(updates, layer, last)
    ensures KeysFor(updates, layer) == KeysFor(updates[..last], layer) + updates[last].key
    ensures ValuesFor(updates, layer) == ValuesFor(updates[..last], layer) + updates[last].value
  {
    var rest := updates[last + 1..];
    assert forall i :: 0 <= i < |rest| ==> rest[i] == updates[last + 1 + i];
    NoneFor(rest, layer);
    assert updates == updates[..last] + ([updates[last]] + rest);
    ForConcat(updates[..last], [updates[last]] + rest, layer);
    ForConcat([updates[last]], rest, layer);
    One(updates[last], layer);
  }

  lemma One<R>(u: Update<R>, layer: nat)
    requires u.layer == layer
    ensures KeysFor([u], layer) == u.key && ValuesFor([u], layer) == u.value
  {
    assert [u][1..] == [];
    assert u.key + [] == u.key && u.value + [] == u.value;
  }
}
