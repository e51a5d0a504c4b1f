/** The planner as it runs: nested mutable maps, changed in place on a deep clone
    (controller/runtimeextension/patch.go). Arrays and scalars are never written into, so they are plain values here. */
module JsonHeap {
  import opened Wrappers
  import opened JsonPath
  import opened SpecPatch

  /** A value stored under a key: a nested map, or a value that is none. */
  datatype Node = Leaf(value: Json) | Child(object_: JsonObject)

  class JsonObject {
    var fields: map<string, Node>
    ghost var Repr: set<JsonObject>

    /** The maps form a tree: children lie in disjoint parts of this object's footprint. */
    ghost predicate Valid()
      reads this, Repr
      decreases Repr
    {
      && this in Repr
      && (forall k | k in fields :: ValidNode(fields[k]))
      && (forall j, k | j in fields && k in fields && j != k && fields[j].Child? && fields[k].Child? ::
            fields[j].object_.Repr !! fields[k].object_.Repr)
    }

    ghost predicate ValidNode(node: Node)
      requires this in Repr
      reads this, Repr
      decreases Repr, 0
    {
      match node
      case Leaf(value) => !value.Object?
      case Child(o) => o in Repr && o.Repr <= Repr && this !in o.Repr && o.Valid()
    }

    function Value(): (v: Json)
      requires Valid()
      reads this, Repr
      ensures v.Object?
      decreases Repr
    {
      Object(map k | k in fields :: NodeValue(k))
    }

    function NodeValue(k: string): Json
      requires Valid() && k in fields
      reads this, Repr
      decreases Repr, 0
    {
      assert ValidNode(fields[k]);
      match fields[k]
      case Leaf(value) => value
      case Child(o) => o.Value()
    }

    constructor ()
      ensures Valid() && fresh(Repr) && Repr == {this} && Value() == Object(map[])
    {
      fields := map[];
      Repr := {this};
    }

    /** Stores a value that shares nothing with this tree. */
    method Put(key: string, node: Node)
      requires Valid()
      requires node.Leaf? ==> !node.value.Object?
      requires node.Child? ==> node.object_.Valid() && node.object_.Repr !! Repr
      modifies this
      ensures Valid()
      ensures fields == old(fields)[key := node]
      ensures Repr == old(Repr) + if node.Child? then node.object_.Repr else {}
      ensures Value() == Object(old(Value()).fields[key := ValueOf(node)])
    {
      ghost var before := Value().fields;
      fields := fields[key := node];
      Repr := Repr + if node.Child? then node.object_.Repr else {};
      forall k | k in fields
        ensures ValidNode(fields[k])
      {
        assert k != key ==> old(ValidNode(fields[k]));
      }
      forall k | k in fields
        ensures NodeValue(k) == before[key := ValueOf(node)][k]
      {
        if k != key {
          assert old(ValidNode(fields[k]));
          assert before[k] == old(NodeValue(k));
        } else {
          assert ValidNode(fields[k]);
        }
      }
      assert Value().fields == before[key := ValueOf(node)];
    }

    method Remove(key: string)
      requires Valid()
      modifies this
      ensures Valid() && Repr == old(Repr)
      ensures Value() == Object(old(Value()).fields - {key})
    {
      fields := fields - {key};
      forall k | k in fields
        ensures ValidNode(fields[k])
      {
        assert old(ValidNode(fields[k]));
      }
    }

    /** Takes in what the child under `key` has grown by, while the other entries are as they were, with the values `kept`. */
    ghost method TakeInGrowth(key: string, kept: map<string, Json>)
      requires this in Repr && key in fields && fields[key].Child? && kept.Keys == fields.Keys
      requires fields[key].object_.Valid() && this !in fields[key].object_.Repr
      requires forall k | k in fields && k != key :: ValidNode(fields[k]) && Detached(fields[k]) && ValueOf(fields[k]) == kept[k]
      requires forall j, k | j in fields && k in fields && j != k && fields[j].Child? && fields[k].Child? ::
        fields[j].object_.Repr !! fields[k].object_.Repr
      modifies this`Repr
      ensures Valid() && Repr == old(Repr) + fields[key].object_.Repr
      ensures fields[key].object_.Valid() && Value() == Object(kept[key := fields[key].object_.Value()])
    {
      Repr := Repr + fields[key].object_.Repr;
      forall k | k in fields
        ensures ValidNode(fields[k])
      {
        assert k != key ==> old(ValidNode(fields[k]));
      }
      forall k | k in fields
        ensures NodeValue(k) == kept[key := fields[key].object_.Value()][k]
      {
        assert ValidNode(fields[k]);
        assert k != key ==> old(ValueOf(fields[k])) == kept[k];
      }
      assert Value().fields == kept[key := fields[key].object_.Value()];
    }
  }

  ghost predicate Detached(node: Node)
    reads if node.Child? then {node.object_} + node.object_.Repr else {}
  {
    if node.Leaf? then !node.value.Object? else node.object_.Valid()
  }

  function ValueOf(node: Node): Json
    requires Detached(node)
    reads if node.Child? then {node.object_} + node.object_.Repr else {}
  {
    if node.Leaf? then node.value else node.object_.Value()
  }

  // ----- cloning -----

  method CloneJSONValue(node: Node) returns (copy: Node)
    requires Detached(node)
    ensures Detached(copy) && ValueOf(copy) == ValueOf(node)
    ensures copy.Child? ==> fresh(copy.object_.Repr)
    decreases if node.Child? then node.object_.Repr else {}, 2
  {
    match node
    case Leaf(value) => copy := node;
    case Child(o) =>
      var cloned := CloneMap(o);
      copy := Child(cloned);
  }

  /** A deep clone: an equal tree that shares no map with the original. */
  method CloneMap(original: JsonObject) returns (copy: JsonObject)
    requires original.Valid()
    ensures copy.Valid() && fresh(copy.Repr)
    ensures copy.Value() == original.Value()
    decreases original.Repr, 1
  {
    copy := new JsonObject();
    var keys := original.fields.Keys;
    ghost var whole := original.Value().fields;
    while keys != {}
      invariant keys <= original.fields.Keys
      invariant copy.Valid() && fresh(copy.Repr)
      invariant original.Valid() && original.Value().fields == whole && copy.Repr !! original.Repr
      invariant copy.Value() == Object(Without(whole, keys))
      decreases |keys|
    {
      var k :| k in keys;
      CloneEntry(original, k, copy);
      WithoutStep(whole, keys, k);
      keys := keys - {k};
    }
    assert Without(whole, {}) == whole;
  }

  /** Puts a clone of one entry into the copy. */
  method CloneEntry(original: JsonObject, k: string, copy: JsonObject)
    requires original.Valid() && k in original.fields
    requires copy.Valid() && copy.Repr !! original.Repr
    modifies copy
    ensures copy.Valid() && fresh(copy.Repr - old(copy.Repr)) && copy.Repr !! original.Repr
    ensures original.Valid() && original.Value() == old(original.Value())
    ensures copy.Value() == Object(old(copy.Value()).fields[k := original.Value().fields[k]])
    decreases original.Repr, 0
  {
    assert original.ValidNode(original.fields[k]);
    assert original.Value().fields[k] == original.NodeValue(k);
    var node := CloneJSONValue(original.fields[k]);
    copy.Put(k, node);
  }

  ghost function Without(fields: map<string, Json>, keys: set<string>): map<string, Json> {
    map k | k in fields && k !in keys :: fields[k]
  }

  lemma WithoutStep(fields: map<string, Json>, keys: set<string>, k: string)
    requires k in keys && k in fields
    ensures Without(fields, keys)[k := fields[k]] == Without(fields, keys - {k})
  {
  }

  // ----- path operations -----

  method ReadPath(root: JsonObject, path: Path) returns (result: Result<Option<Node>, PathError>)
    requires root.Valid()
    ensures var found := JsonPath.ReadPath(root.Value(), path);
      if found.Failure? then result == Failure(found.error)
      else if found.value.None? then result == Success(None)
      else result.Success? && result.value.Some? && Detached(result.value.value) && ValueOf(result.value.value) == found.value.value
    ensures result.Success? && result.value.Some? && result.value.value.Child? ==> result.value.value.object_.Repr <= root.Repr
  {
    var current := Child(root);
    for i := 0 to |path|
      invariant Detached(current) && (current.Child? ==> current.object_.Repr <= root.Repr)
      invariant JsonPath.ReadPath(root.Value(), path) == JsonPath.ReadPath(ValueOf(current), path[i..])
    {
      assert path[i..][0] == path[i] && path[i..][1..] == path[i + 1..];
      if current.Leaf? {
        return Failure(ParentNotObject);
      }
      var o := current.object_;
      if path[i] !in o.fields {
        return Success(None);
      }
      assert o.ValidNode(o.fields[path[i]]);
      assert o.Value().fields[path[i]] == o.NodeValue(path[i]);
      current := o.fields[path[i]];
    }
    assert path[|path|..] == [];
    return Success(Some(current));
  }

  /** What writing `value` at a path of `before`, or deleting the path if there is no value, must have done.
      A failed edit leaves the tree as it was. */
  ghost predicate Edited(before: Json, path: Path, value: Option<Json>, error: Option<PathError>, after: Json)
    requires before.Object? && path != []
  {
    var result := if value.Some? then JsonPath.WritePath(before, path, value.value) else JsonPath.DeletePath(before, path);
    if result.Success? then error.None? && after == result.value
    else error == Some(result.error) && after == before
  }

  /** Puts an empty map under a key that is not taken. */
  method MakeChild(root: JsonObject, key: string)
    requires root.Valid() && key !in root.fields
    modifies root
    ensures root.Valid() && old(root.Repr) <= root.Repr && fresh(root.Repr - old(root.Repr))
    ensures key in root.fields && root.Value() == Object(old(root.Value()).fields[key := Object(map[])])
  {
    var nested := new JsonObject();
    root.Put(key, Child(nested));
  }

  /** Writes a clone of `value`, creating the missing maps on the way. */
  method WritePath(root: JsonObject, path: Path, value: Node) returns (error: Option<PathError>)
    requires root.Valid() && path != [] && Detached(value)
    requires value.Child? ==> value.object_.Repr !! root.Repr
    modifies root.Repr
    ensures root.Valid() && old(root.Repr) <= root.Repr && fresh(root.Repr - old(root.Repr))
    ensures Edited(old(root.Value()), path, Some(old(ValueOf(value))), error, root.Value())
    decreases |path|, 1
  {
    if |path| == 1 {
      var copy := CloneJSONValue(value);
      root.Put(path[0], copy);
      return None;
    }
    ghost var before, written := root.Value(), ValueOf(value);
    if path[0] !in root.fields {
      MakeChild(root, path[0]);
      WriteIntoNewObject(before, path, written);
    }
    error := EditBelow(root, path, Some(value));
  }

  method DeletePath(root: JsonObject, path: Path) returns (error: Option<PathError>)
    requires root.Valid() && path != []
    modifies root.Repr
    ensures root.Valid() && old(root.Repr) <= root.Repr && fresh(root.Repr - old(root.Repr))
    ensures Edited(old(root.Value()), path, None, error, root.Value())
    decreases |path|, 1
  {
    if |path| == 1 {
      root.Remove(path[0]);
      return None;
    }
    if path[0] !in root.fields {
      return None;
    }
    error := EditBelow(root, path, None);
  }

  /** Writes if there is a value, deletes if there is none. */
  method Edit(root: JsonObject, path: Path, value: Option<Node>) returns (error: Option<PathError>)
    requires root.Valid() && path != []
    requires value.Some? ==> Detached(value.value) && (value.value.Child? ==> value.value.object_.Repr !! root.Repr)
    modifies root.Repr
    ensures root.Valid() && old(root.Repr) <= root.Repr && fresh(root.Repr - old(root.Repr))
    ensures Edited(old(root.Value()), path, if value.Some? then Some(old(ValueOf(value.value))) else None, error, root.Value())
    decreases |path|, 2
  {
    if value.Some? {
      error := WritePath(root, path, value.value);
    } else {
      error := DeletePath(root, path);
    }
  }

  /** Creating the missing map first makes no difference, and the write into it cannot fail. */
  lemma WriteIntoNewObject(before: Json, path: Path, value: Json)
    requires before.Object? && |path| > 1 && path[0] !in before.fields
    ensures var created := Object(before.fields[path[0] := Object(map[])]);
      JsonPath.WritePath(before, path, value).Success?
      && JsonPath.WritePath(created, path, value) == JsonPath.WritePath(before, path, value)
  {
    WriteResult(Object(map[]), path[1..], value);
    var created := before.fields[path[0] := Object(map[])];
    var written := JsonPath.WritePath(Object(map[]), path[1..], value).value;
    assert created[path[0] := written] == before.fields[path[0] := written];
  }

  /** The step from a map to the map below it, which writing and deleting share: the child changes in place,
      and the rest of its parent, lying in other footprints, stays what it was. */
  method EditBelow(root: JsonObject, path: Path, value: Option<Node>) returns (error: Option<PathError>)
    requires root.Valid() && |path| > 1 && path[0] in root.fields
    requires value.Some? ==> Detached(value.value) && (value.value.Child? ==> value.value.object_.Repr !! root.Repr)
    modifies root.Repr
    ensures root.Valid() && old(root.Repr) <= root.Repr && fresh(root.Repr - old(root.Repr))
    ensures Edited(old(root.Value()), path, if value.Some? then Some(old(ValueOf(value.value))) else None, error, root.Value())
    decreases |path|, 0
  {
    ghost var before := root.Value();
    assert root.ValidNode(root.fields[path[0]]);
    assert before.fields[path[0]] == root.NodeValue(path[0]);
    if root.fields[path[0]].Leaf? {
      return Some(ParentNotObject);
    }
    var nested := root.fields[path[0]].object_;
    error := Edit(nested, path[1..], value);
    forall k | k in root.fields && k != path[0]
      ensures root.ValidNode(root.fields[k]) && Detached(root.fields[k]) && ValueOf(root.fields[k]) == before.fields[k]
      ensures root.fields[k].Child? ==>
        root.fields[k].object_.Repr == old(root.fields[k].object_.Repr) && root.fields[k].object_.Repr !! nested.Repr
    {
      assert old(root.ValidNode(root.fields[k])) && before.fields[k] == old(root.NodeValue(k));
      if root.fields[k].Child? {
        assert old(root.fields[k].object_.Repr) !! old(nested.Repr);
        assert old(root.fields[k].object_.Valid());
      }
    }
    root.TakeInGrowth(path[0], before.fields);
    if error.Some? {
      assert root.Value().fields == before.fields;
    }
  }

  method CopyOrDeletePath(current: JsonObject, desired: JsonObject, path: Path) returns (error: Option<PathError>)
    requires current.Valid() && desired.Valid() && current.Repr !! desired.Repr && path != []
    modifies current.Repr
    ensures current.Valid() && desired.Valid() && current.Repr !! desired.Repr
    ensures old(current.Repr) <= current.Repr && fresh(current.Repr - old(current.Repr))
    ensures desired.Value() == old(desired.Value())
    ensures var copied := JsonPath.CopyOrDeletePath(old(current.Value()), old(desired.Value()), path);
      if copied.Success? then error.None? && current.Value() == copied.value else error == Some(copied.error)
  {
    var found := ReadPath(desired, path);
    if found.Failure? {
      return Some(found.error);
    }
    if found.value.Some? {
      error := WritePath(current, path, found.value.value);
    } else {
      error := DeletePath(current, path);
    }
  }

  /** The planner's loop: copies or deletes every allowed path of `normalized`, in order. */
  method Normalize(normalized: JsonObject, desired: JsonObject, allowedPaths: seq<Path>) returns (error: Option<PathError>)
    requires normalized.Valid() && desired.Valid() && normalized.Repr !! desired.Repr && AllNonEmpty(allowedPaths)
    modifies normalized.Repr
    ensures normalized.Valid() && desired.Valid() && desired.Value() == old(desired.Value())
    ensures Normalized(old(normalized.Value()), old(desired.Value()), allowedPaths) ==
            if error.Some? then Failure(error.value) else Success(normalized.Value())
  {
    ghost var current, goal := normalized.Value(), desired.Value();
    for i := 0 to |allowedPaths|
      invariant normalized.Valid() && desired.Valid() && normalized.Repr !! desired.Repr
      invariant old(normalized.Repr) <= normalized.Repr && fresh(normalized.Repr - old(normalized.Repr))
      invariant desired.Value() == goal
      invariant Normalized(current, goal, allowedPaths[..i]) == Success(normalized.Value())
    {
      assert allowedPaths[..i + 1][..i] == allowedPaths[..i];
      error := CopyOrDeletePath(normalized, desired, allowedPaths[i]);
      if error.Some? {
        NormalizingFailsForGood(current, goal, allowedPaths, i + 1, error.value);
        return;
      }
    }
    assert allowedPaths[..|allowedPaths|] == allowedPaths;
    return None;
  }

  /** The planner on mutable maps: it decides what the value-level planner decides and, having no frame to modify,
      leaves both specs untouched. */
  method PlanSpecPatch(current: JsonObject, desired: JsonObject, allowedPaths: seq<Path>, patchPath: Path) returns (result: Result<Patch, PathError>)
    requires current.Valid() && desired.Valid() && AllNonEmpty(allowedPaths)
    ensures result == SpecPatch.PlanSpecPatch(current.Value(), desired.Value(), allowedPaths, patchPath)
  {
    if current.Value() == desired.Value() {
      return Success(NoPatch);
    }
    var normalized := CloneMap(current);
    var error := Normalize(normalized, desired, allowedPaths);
    if error.Some? {
      return Failure(error.value);
    }
    if normalized.Value() != desired.Value() {
      return Failure(UnsupportedDifference);
    }
    return Success(Replace(patchPath, desired.Value()));
  }

  lemma {:induction false} NormalizingFailsForGood(current: Json, desired: Json, allowed: seq<Path>, done: nat, e: PathError)
    requires current.Object? && AllNonEmpty(allowed) && done <= |allowed|
    requires Normalized(current, desired, allowed[..done]) == Failure(e)
    ensures Normalized(current, desired, allowed) == Failure(e)
    decreases |allowed| - done
  {
    if done < |allowed| {
      assert allowed[..done + 1][..done] == allowed[..done];
      NormalizingFailsForGood(current, desired, allowed, done + 1, e);
    } else {
      assert allowed[..done] == allowed;
    }
  }
}
