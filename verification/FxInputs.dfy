/** Reference lists of captured nodes: `_node_refs` and `_unique` in python/llmopt_backend/__init__.py. */
module FxInputs {
  import opened Results
  import opened Utf8
  import opened FxGraph
  import opened GraphNames

  // ---------------------------------------------------------------------------------------
  // References outside slices
  // ---------------------------------------------------------------------------------------

  /** `_node_refs`, which does not look into slices. */
  function NodeRefs(a: Argument): seq<Text>
    decreases a, 1
  {
    match a
    case NodeRef(name) => [name]
    case List(items) => NodeRefsOfAll(items)
    case Tuple(elements) => NodeRefsOfAll(elements)
    case Mapping(fields) => NodeRefsOfFields(fields)
    case _ => []
  }

  function NodeRefsOfAll(items: seq<Argument>): seq<Text>
    decreases items, 0
  {
    if items == [] then [] else NodeRefs(items[0]) + NodeRefsOfAll(items[1..])
  }

  function NodeRefsOfFields(fields: seq<Field>): seq<Text>
    decreases fields, 0
  {
    if fields == [] then [] else NodeRefs(fields[0].value) + NodeRefsOfFields(fields[1..])
  }

  /** No slice in the argument contains a reference. */
  predicate SlicesAreConstant(a: Argument)
    decreases a, 1
  {
    match a
    case List(items) => AllSlicesAreConstant(items)
    case Tuple(elements) => AllSlicesAreConstant(elements)
    case Mapping(fields) => FieldSlicesAreConstant(fields)
    case Slice(_, _, _) => Refs(a) == []
    case _ => true
  }

  predicate AllSlicesAreConstant(items: seq<Argument>)
    decreases items, 0
  {
    items != [] ==> SlicesAreConstant(items[0]) && AllSlicesAreConstant(items[1..])
  }

  predicate FieldSlicesAreConstant(fields: seq<Field>)
    decreases fields, 0
  {
    fields != [] ==> SlicesAreConstant(fields[0].value) && FieldSlicesAreConstant(fields[1..])
  }

  /** `_node_refs` finds no more than the planner does, and everything exactly when slices are constant. */
  lemma {:induction false} NodeRefsMissSlices(a: Argument)
    ensures |NodeRefs(a)| <= |Refs(a)|
    ensures NodeRefs(a) == Refs(a) <==> SlicesAreConstant(a)
    ensures |NodeRefs(a)| == |Refs(a)| ==> NodeRefs(a) == Refs(a)
    decreases a, 1
  {
    match a {
      case List(items) => NodeRefsOfAllMissSlices(items);
      case Tuple(elements) => NodeRefsOfAllMissSlices(elements);
      case Mapping(fields) => NodeRefsOfFieldsMissSlices(fields);
      case _ =>
    }
  }

  lemma {:induction false} NodeRefsOfAllMissSlices(items: seq<Argument>)
    ensures |NodeRefsOfAll(items)| <= |RefsOfAll(items)|
    ensures NodeRefsOfAll(items) == RefsOfAll(items) <==> AllSlicesAreConstant(items)
    ensures |NodeRefsOfAll(items)| == |RefsOfAll(items)| ==> NodeRefsOfAll(items) == RefsOfAll(items)
    decreases items, 0
  {
    if items != [] {
      NodeRefsMissSlices(items[0]);
      NodeRefsOfAllMissSlices(items[1..]);
    }
  }

  lemma {:induction false} NodeRefsOfFieldsMissSlices(fields: seq<Field>)
    ensures |NodeRefsOfFields(fields)| <= |RefsOfFields(fields)|
    ensures NodeRefsOfFields(fields) == RefsOfFields(fields) <==> FieldSlicesAreConstant(fields)
    ensures |NodeRefsOfFields(fields)| == |RefsOfFields(fields)| ==> NodeRefsOfFields(fields) == RefsOfFields(fields)
    decreases fields, 0
  {
    if fields != [] {
      NodeRefsMissSlices(fields[0].value);
      NodeRefsOfFieldsMissSlices(fields[1..]);
    }
  }

  // ---------------------------------------------------------------------------------------
  // First occurrences
  // ---------------------------------------------------------------------------------------

  /** The values in the order of their first occurrence. */
  function Unique(values: seq<Text>): (r: seq<Text>)
    ensures forall v :: v in r <==> v in values
    ensures forall i, j :: 0 <= i < j < |r| ==> r[i] != r[j]
  {
    if values == [] then []
    else
      var last := values[|values| - 1];
      var rest := Unique(values[..|values| - 1]);
      if last in rest then rest else rest + [last]
  }

  /** `_unique`. */
  method UniqueValues(values: seq<Text>) returns (result: seq<Text>)
    ensures result == Unique(values)
  {
    var seen: set<Text> := {};
    result := [];
    var i := 0;
    while i < |values|
      invariant i <= |values| && result == Unique(values[..i])
      invariant forall v :: v in seen <==> v in result
    {
      assert values[..i + 1][..i] == values[..i];
      if values[i] !in seen {
        seen := seen + {values[i]};
        result := result + [values[i]];
      }
      i := i + 1;
    }
    assert values[..|values|] == values;
  }

  lemma UniqueSnoc(values: seq<Text>, value: Text)
    ensures Unique(values + [value]) == if value in values then Unique(values) else Unique(values) + [value]
  {
    assert (values + [value])[..|values|] == values;
  }

  /** Values that are new and different from each other are appended as they are. */
  lemma {:induction false} UniqueAppend(values: seq<Text>, more: seq<Text>)
    requires forall i :: 0 <= i < |more| ==> more[i] !in values
    requires forall i, j :: 0 <= i < j < |more| ==> more[i] != more[j]
    ensures Unique(values + more) == Unique(values) + more
  {
    if more == [] {
      assert values + more == values;
    } else {
      var n := |more| - 1;
      UniqueAppend(values, more[..n]);
      assert values + more == (values + more[..n]) + [more[n]];
      assert more[n] !in values + more[..n];
      UniqueSnoc(values + more[..n], more[n]);
      assert more == more[..n] + [more[n]];
    }
  }

  /** Values that have all been seen before add nothing. */
  lemma {:induction false} UniqueRepeat(values: seq<Text>, more: seq<Text>)
    requires forall i :: 0 <= i < |more| ==> more[i] in values
    ensures Unique(values + more) == Unique(values)
  {
    hide Unique;
    if more == [] {
      assert values + more == values;
    } else {
      var n := |more| - 1;
      UniqueRepeat(values, more[..n]);
      assert values + more == (values + more[..n]) + [more[n]];
      assert more[n] in values;
      UniqueSnoc(values + more[..n], more[n]);
    }
  }
}
