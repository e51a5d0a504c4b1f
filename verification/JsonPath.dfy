/** JSON trees and the path operations of the in-place update planner (controller/runtimeextension/patch.go). */
module JsonPath {
  import opened Wrappers

  datatype Json =
    | Null
    | Bool(b: bool)
    | Number(n: real)
    | String(s: string)
    | Array(items: seq<Json>)
    | Object(fields: map<string, Json>)

  type Path = seq<string>

  datatype PathError = ParentNotObject | UnsupportedDifference | MissingSpec | SpecNotObject | UnexpectedIdentity | PresenceChanged

  /** Follows a path. A missing key is no error, but a value that is not an object on the way is. */
  function ReadPath(value: Json, path: Path): Result<Option<Json>, PathError> {
    if path == [] then Success(Some(value))
    else if !value.Object? then Failure(ParentNotObject)
    else if path[0] !in value.fields then Success(None)
    else ReadPath(value.fields[path[0]], path[1..])
  }

  /** Sets the value at a path, creating the missing objects on the way. */
  function WritePath(root: Json, path: Path, value: Json): (r: Result<Json, PathError>)
    requires root.Object? && path != []
    ensures r.Success? ==> r.value.Object?
    decreases |path|
  {
    if |path| == 1 then Success(Object(root.fields[path[0] := value]))
    else
      var child := if path[0] in root.fields then root.fields[path[0]] else Object(map[]);
      if !child.Object? then Failure(ParentNotObject)
      else
        match WritePath(child, path[1..], value)
        case Success(written) => Success(Object(root.fields[path[0] := written]))
        case Failure(e) => Failure(e)
  }

  /** Removes the value at a path; a missing object on the way leaves nothing to remove. */
  function DeletePath(root: Json, path: Path): (r: Result<Json, PathError>)
    requires root.Object? && path != []
    ensures r.Success? ==> r.value.Object?
    decreases |path|
  {
    if |path| == 1 then Success(Object(root.fields - {path[0]}))
    else if path[0] !in root.fields then Success(root)
    else if !root.fields[path[0]].Object? then Failure(ParentNotObject)
    else
      match DeletePath(root.fields[path[0]], path[1..])
      case Success(rest) => Success(Object(root.fields[path[0] := rest]))
      case Failure(e) => Failure(e)
  }

  function CopyOrDeletePath(current: Json, desired: Json, path: Path): (r: Result<Json, PathError>)
    requires current.Object? && path != []
    ensures r.Success? ==> r.value.Object?
  {
    match ReadPath(desired, path)
    case Failure(e) => Failure(e)
    case Success(None) => DeletePath(current, path)
    case Success(Some(value)) => WritePath(current, path, value)
  }

  // ----- an independent view: what is found at a path -----

  /** The value at a path, or None where there is none. */
  function Lookup(value: Json, path: Path): Option<Json> {
    if path == [] then Some(value)
    else if value.Object? && path[0] in value.fields then Lookup(value.fields[path[0]], path[1..])
    else None
  }

  /** Neither path leads to or through the other. */
  predicate Incomparable(p: Path, q: Path) {
    !(p <= q) && !(q <= p)
  }

  /** The paths strictly above `path` are objects wherever they exist. */
  predicate ParentsAreObjectsOrMissing(value: Json, path: Path) {
    path == [] ||
    (value.Object? && (path[0] in value.fields ==> ParentsAreObjectsOrMissing(value.fields[path[0]], path[1..])))
  }

  predicate ParentsAreObjects(value: Json, path: Path) {
    path == [] ||
    (value.Object? && (|path| > 1 ==> path[0] in value.fields && ParentsAreObjects(value.fields[path[0]], path[1..])))
  }

  lemma {:induction false} LookupSplit(value: Json, p: Path, q: Path)
    ensures Lookup(value, p + q) == if Lookup(value, p).Some? then Lookup(Lookup(value, p).value, q) else None
    decreases |p|
  {
    if p == [] {
      assert p + q == q;
    } else {
      assert (p + q)[0] == p[0] && (p + q)[1..] == p[1..] + q;
      if value.Object? && p[0] in value.fields {
        LookupSplit(value.fields[p[0]], p[1..], q);
      }
    }
  }

  /** Reading succeeds exactly when nothing on the way is something else than an object, and then finds what Lookup finds. */
  lemma {:induction false} ReadIsLookup(value: Json, path: Path)
    ensures ReadPath(value, path).Success? <==> ParentsAreObjectsOrMissing(value, path)
    ensures ReadPath(value, path).Success? ==> ReadPath(value, path).value == Lookup(value, path)
    decreases |path|
  {
    if path != [] && value.Object? && path[0] in value.fields {
      ReadIsLookup(value.fields[path[0]], path[1..]);
    }
  }

  lemma {:induction false} WriteResult(root: Json, path: Path, value: Json)
    requires root.Object? && path != []
    ensures WritePath(root, path, value).Success? <==> ParentsAreObjectsOrMissing(root, path)
    ensures WritePath(root, path, value).Success? ==> Lookup(WritePath(root, path, value).value, path) == Some(value)
    decreases |path|
  {
    if |path| > 1 {
      var child := if path[0] in root.fields then root.fields[path[0]] else Object(map[]);
      if child.Object? {
        WriteResult(child, path[1..], value);
      }
    }
  }

  lemma {:induction false} DeleteResult(root: Json, path: Path)
    requires root.Object? && path != []
    ensures DeletePath(root, path).Success? <==> ParentsAreObjectsOrMissing(root, path)
    ensures DeletePath(root, path).Success? ==> Lookup(DeletePath(root, path).value, path) == None
    decreases |path|
  {
    if |path| > 1 && path[0] in root.fields && root.fields[path[0]].Object? {
      DeleteResult(root.fields[path[0]], path[1..]);
    }
  }

  /** Writing changes nothing that lies off its path. */
  lemma {:induction false} WriteElsewhere(root: Json, path: Path, value: Json, q: Path)
    requires root.Object? && path != [] && Incomparable(path, q)
    requires WritePath(root, path, value).Success?
    ensures Lookup(WritePath(root, path, value).value, q) == Lookup(root, q)
    decreases |path|
  {
    if q[0] == path[0] {
      assert |path| > 1 && |q| > 1 by {
        assert path == [path[0]] + path[1..] && q == [q[0]] + q[1..];
      }
      var child := if path[0] in root.fields then root.fields[path[0]] else Object(map[]);
      TailsIncomparable(path, q);
      WriteElsewhere(child, path[1..], value, q[1..]);
    }
  }

  lemma TailsIncomparable(p: Path, q: Path)
    requires Incomparable(p, q) && p[0] == q[0]
    ensures Incomparable(p[1..], q[1..])
  {
    assert p == [p[0]] + p[1..] && q == [q[0]] + q[1..];
  }

  lemma {:induction false} DeleteElsewhere(root: Json, path: Path, q: Path)
    requires root.Object? && path != [] && Incomparable(path, q)
    requires DeletePath(root, path).Success?
    ensures Lookup(DeletePath(root, path).value, q) == Lookup(root, q)
    decreases |path|
  {
    if q[0] == path[0] {
      assert |path| > 1 && |q| > 1 by {
        assert path == [path[0]] + path[1..] && q == [q[0]] + q[1..];
      }
      if path[0] in root.fields {
        TailsIncomparable(path, q);
        DeleteElsewhere(root.fields[path[0]], path[1..], q[1..]);
      }
    }
  }

  /** Inside a path that is written through, the write happens in the value found there. */
  lemma {:induction false} WriteInside(root: Json, p: Path, r: Path, value: Json)
    requires root.Object? && r != [] && Lookup(root, p).Some? && Lookup(root, p).value.Object?
    ensures var inner := WritePath(Lookup(root, p).value, r, value);
      inner.Success? ==> WritePath(root, p + r, value).Success? && Lookup(WritePath(root, p + r, value).value, p) == Some(inner.value)
    decreases |p|
  {
    if p == [] {
      assert p + r == r;
    } else {
      assert (p + r)[0] == p[0] && (p + r)[1..] == p[1..] + r;
      var child := root.fields[p[0]];
      assert child.Object? by {
        if p[1..] != [] { assert Lookup(child, p[1..]).Some?; }
      }
      WriteInside(child, p[1..], r, value);
    }
  }

  lemma {:induction false} DeleteInside(root: Json, p: Path, r: Path)
    requires root.Object? && r != [] && Lookup(root, p).Some? && Lookup(root, p).value.Object?
    ensures var inner := DeletePath(Lookup(root, p).value, r);
      inner.Success? ==> DeletePath(root, p + r).Success? && Lookup(DeletePath(root, p + r).value, p) == Some(inner.value)
    decreases |p|
  {
    if p == [] {
      assert p + r == r;
    } else {
      assert (p + r)[0] == p[0] && (p + r)[1..] == p[1..] + r;
      var child := root.fields[p[0]];
      assert child.Object? by {
        if p[1..] != [] { assert Lookup(child, p[1..]).Some?; }
      }
      DeleteInside(child, p[1..], r);
    }
  }

  /** Writing what is already there, or deleting what is not, changes nothing. */
  lemma {:induction false} WriteSame(root: Json, path: Path)
    requires root.Object? && path != [] && Lookup(root, path).Some?
    ensures WritePath(root, path, Lookup(root, path).value) == Success(root)
    decreases |path|
  {
    var found := Lookup(root, path).value;
    if |path| == 1 {
      assert root.fields[path[0] := found] == root.fields;
    } else {
      var child := root.fields[path[0]];
      WriteSame(child, path[1..]);
      assert root.fields[path[0] := child] == root.fields;
    }
  }

  lemma {:induction false} DeleteMissing(root: Json, path: Path)
    requires root.Object? && path != [] && Lookup(root, path).None? && ParentsAreObjectsOrMissing(root, path)
    ensures DeletePath(root, path) == Success(root)
    decreases |path|
  {
    if |path| == 1 {
      assert root.fields - {path[0]} == root.fields;
    } else if path[0] in root.fields {
      DeleteMissing(root.fields[path[0]], path[1..]);
      assert root.fields[path[0] := root.fields[path[0]]] == root.fields;
    }
  }

  // ----- one allowed path at a time -----

  /** Copying or deleting one path: it succeeds when both sides have objects along the path, makes the two sides agree
      at that path, and leaves every path off it alone. */
  lemma CopyOrDeleteResult(current: Json, desired: Json, path: Path)
    requires current.Object? && path != []
    ensures CopyOrDeletePath(current, desired, path).Success?
      <==> ParentsAreObjectsOrMissing(current, path) && ParentsAreObjectsOrMissing(desired, path)
    ensures CopyOrDeletePath(current, desired, path).Success? ==>
      Lookup(CopyOrDeletePath(current, desired, path).value, path) == Lookup(desired, path)
  {
    ReadIsLookup(desired, path);
    if Lookup(desired, path).Some? {
      WriteResult(current, path, Lookup(desired, path).value);
    } else {
      DeleteResult(current, path);
    }
  }

  lemma CopyOrDeleteElsewhere(current: Json, desired: Json, path: Path, q: Path)
    requires current.Object? && path != [] && Incomparable(path, q)
    requires CopyOrDeletePath(current, desired, path).Success?
    ensures Lookup(CopyOrDeletePath(current, desired, path).value, q) == Lookup(current, q)
  {
    ReadIsLookup(desired, path);
    if Lookup(desired, path).Some? {
      WriteElsewhere(current, path, Lookup(desired, path).value, q);
    } else {
      DeleteElsewhere(current, path, q);
    }
  }

  /** Agreement at another path, once reached, is kept. */
  lemma CopyOrDeleteKeepsAgreement(current: Json, desired: Json, path: Path, q: Path)
    requires current.Object? && path != []
    requires CopyOrDeletePath(current, desired, path).Success?
    requires Lookup(current, q) == Lookup(desired, q)
    ensures Lookup(CopyOrDeletePath(current, desired, path).value, q) == Lookup(desired, q)
  {
    var after := CopyOrDeletePath(current, desired, path).value;
    CopyOrDeleteResult(current, desired, path);
    ReadIsLookup(desired, path);
    if path <= q {
      var r := q[|path|..];
      assert q == path + r;
      LookupSplit(after, path, r);
      LookupSplit(desired, path, r);
    } else if q <= path {
      var r := path[|q|..];
      assert path == q + r && r != [];
      LookupSplit(desired, q, r);
      if Lookup(current, q).Some? {
        var inner := Lookup(current, q).value;
        ParentsSplit(desired, q, r);
        if inner.Object? {
          if Lookup(desired, path).Some? {
            WriteSame(inner, r);
            WriteInside(current, q, r, Lookup(desired, path).value);
          } else {
            DeleteMissing(inner, r);
            DeleteInside(current, q, r);
          }
        }
      } else {
        MissingStaysMissing(current, q, r);
      }
    } else {
      CopyOrDeleteElsewhere(current, desired, path, q);
    }
  }

  lemma {:induction false} ParentsSplit(value: Json, q: Path, r: Path)
    requires ParentsAreObjectsOrMissing(value, q + r) && Lookup(value, q).Some?
    ensures ParentsAreObjectsOrMissing(Lookup(value, q).value, r)
    decreases |q|
  {
    if q == [] {
      assert q + r == r;
    } else {
      assert (q + r)[0] == q[0] && (q + r)[1..] == q[1..] + r;
      ParentsSplit(value.fields[q[0]], q[1..], r);
    }
  }

  /** Deleting below a missing path leaves it missing. */
  lemma {:induction false} MissingStaysMissing(root: Json, q: Path, r: Path)
    requires root.Object? && q + r != [] && Lookup(root, q).None?
    requires DeletePath(root, q + r).Success?
    ensures Lookup(DeletePath(root, q + r).value, q).None?
    decreases |q|
  {
    var path := q + r;
    assert path[0] == q[0] && path[1..] == q[1..] + r;
    if |path| > 1 && path[0] in root.fields && |q| > 1 {
      MissingStaysMissing(root.fields[q[0]], q[1..], r);
    }
  }
}
