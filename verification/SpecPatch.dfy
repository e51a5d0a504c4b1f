/** The planner for in-place updates: which differences between two specs it accepts, and what the emitted patch does
    (controller/runtimeextension/patch.go). */
module SpecPatch {
  import opened Wrappers
  import opened JsonPath

  /** A JSON Patch document: empty, or one "replace" operation (section 4.3 of RFC 6902). */
  datatype Patch = NoPatch | Replace(path: Path, value: Json)

  /** The current spec after every allowed path was copied from, or deleted with, the desired spec. */
  function Normalized(current: Json, desired: Json, allowed: seq<Path>): (r: Result<Json, PathError>)
    requires current.Object? && AllNonEmpty(allowed)
    ensures r.Success? ==> r.value.Object?
  {
    if allowed == [] then Success(current)
    else
      match Normalized(current, desired, allowed[..|allowed| - 1])
      case Failure(e) => Failure(e)
      case Success(before) => CopyOrDeletePath(before, desired, allowed[|allowed| - 1])
  }

  predicate AllNonEmpty(allowed: seq<Path>) {
    forall k | 0 <= k < |allowed| :: allowed[k] != []
  }

  function PlanSpecPatch(current: Json, desired: Json, allowed: seq<Path>, patchPath: Path): Result<Patch, PathError>
    requires current.Object? && desired.Object? && AllNonEmpty(allowed)
  {
    if current == desired then Success(NoPatch)
    else
      match Normalized(current, desired, allowed)
      case Failure(e) => Failure(e)
      case Success(normalized) =>
        if normalized != desired then Failure(UnsupportedDifference) else Success(Replace(patchPath, desired))
  }

  // ----- which differences are accepted -----

  /** `q` neither leads to nor lies below an allowed path. */
  ghost predicate OffLimits(allowed: seq<Path>, q: Path) {
    forall k | 0 <= k < |allowed| :: Incomparable(allowed[k], q)
  }

  ghost predicate AgreeOutside(current: Json, desired: Json, allowed: seq<Path>) {
    forall q | OffLimits(allowed, q) :: Lookup(current, q) == Lookup(desired, q)
  }

  lemma {:induction false} NormalizingLeavesOffLimitsAlone(current: Json, desired: Json, allowed: seq<Path>, q: Path)
    requires current.Object? && AllNonEmpty(allowed) && OffLimits(allowed, q)
    requires Normalized(current, desired, allowed).Success?
    ensures Lookup(Normalized(current, desired, allowed).value, q) == Lookup(current, q)
    decreases |allowed|
  {
    if allowed != [] {
      var rest, last := allowed[..|allowed| - 1], allowed[|allowed| - 1];
      NormalizingLeavesOffLimitsAlone(current, desired, rest, q);
      CopyOrDeleteElsewhere(Normalized(current, desired, rest).value, desired, last, q);
    }
  }

  lemma {:induction false} NormalizingReachesAgreement(current: Json, desired: Json, allowed: seq<Path>, k: nat)
    requires current.Object? && AllNonEmpty(allowed) && k < |allowed|
    requires Normalized(current, desired, allowed).Success?
    ensures Lookup(Normalized(current, desired, allowed).value, allowed[k]) == Lookup(desired, allowed[k])
    decreases |allowed|
  {
    var rest, last := allowed[..|allowed| - 1], allowed[|allowed| - 1];
    var before := Normalized(current, desired, rest).value;
    if k < |rest| {
      NormalizingReachesAgreement(current, desired, rest, k);
      CopyOrDeleteKeepsAgreement(before, desired, last, allowed[k]);
    } else {
      CopyOrDeleteResult(before, desired, last);
    }
  }

  /** A plan is accepted only if the two specs agree everywhere off the allowed paths. */
  lemma AcceptedPlansAgreeOutside(current: Json, desired: Json, allowed: seq<Path>, patchPath: Path)
    requires current.Object? && desired.Object? && AllNonEmpty(allowed)
    requires PlanSpecPatch(current, desired, allowed, patchPath).Success?
    ensures AgreeOutside(current, desired, allowed)
  {
    if current != desired {
      forall q | OffLimits(allowed, q)
        ensures Lookup(current, q) == Lookup(desired, q)
      {
        NormalizingLeavesOffLimitsAlone(current, desired, allowed, q);
      }
    }
  }

  /** `q` lies strictly above some allowed path. */
  ghost predicate Above(allowed: seq<Path>, q: Path) {
    exists k :: IsAbove(allowed, q, k)
  }

  ghost predicate IsAbove(allowed: seq<Path>, q: Path, k: int) {
    0 <= k < |allowed| && q < allowed[k]
  }

  /** Every parent of an allowed path is present as an object. */
  ghost predicate AllParentsAreObjects(value: Json, allowed: seq<Path>) {
    forall k | 0 <= k < |allowed| :: ParentsAreObjects(value, allowed[k])
  }

  lemma {:induction false} ParentObjectAt(value: Json, path: Path, q: Path)
    requires ParentsAreObjects(value, path) && q < path
    ensures Lookup(value, q).Some? && Lookup(value, q).value.Object?
    decreases |path|
  {
    if q != [] {
      assert path[0] == q[0] && q[1..] < path[1..] by {
        assert path == [path[0]] + path[1..] && q == [q[0]] + q[1..];
      }
      ParentObjectAt(value.fields[path[0]], path[1..], q[1..]);
    }
  }

  ghost predicate MissingOrObject(value: Json, q: Path) {
    Lookup(value, q).None? || Lookup(value, q).value.Object?
  }

  lemma {:induction false} ParentsFromLookups(value: Json, path: Path)
    requires forall q | q < path :: MissingOrObject(value, q)
    ensures ParentsAreObjectsOrMissing(value, path)
    decreases |path|
  {
    if path != [] {
      assert [] < path;
      assert MissingOrObject(value, []) && Lookup(value, []) == Some(value);
      if path[0] in value.fields {
        forall r | r < path[1..]
          ensures MissingOrObject(value.fields[path[0]], r)
        {
          var q := [path[0]] + r;
          assert q < path;
          assert q[1..] == r;
          assert MissingOrObject(value, q);
        }
        ParentsFromLookups(value.fields[path[0]], path[1..]);
      }
    }
  }

  ghost predicate ObjectAt(value: Json, q: Path) {
    Lookup(value, q).Some? && Lookup(value, q).value.Object?
  }

  /** Copying or deleting at one path keeps an object that is an object on both sides. */
  lemma CopyOrDeleteKeepsObject(current: Json, desired: Json, path: Path, q: Path)
    requires current.Object? && path != [] && CopyOrDeletePath(current, desired, path).Success?
    requires ObjectAt(current, q) && ObjectAt(desired, q)
    ensures ObjectAt(CopyOrDeletePath(current, desired, path).value, q)
  {
    var after := CopyOrDeletePath(current, desired, path).value;
    CopyOrDeleteResult(current, desired, path);
    ReadIsLookup(desired, path);
    if path <= q {
      var r := q[|path|..];
      assert q == path + r;
      LookupSplit(after, path, r);
      LookupSplit(desired, path, r);
    } else if q <= path {
      var r := path[|q|..];
      assert path == q + r && r != [];
      var inner := Lookup(current, q).value;
      ParentsSplit(current, q, r);
      if Lookup(desired, path).Some? {
        WriteResult(inner, r, Lookup(desired, path).value);
        WriteInside(current, q, r, Lookup(desired, path).value);
      } else {
        DeleteResult(inner, r);
        DeleteInside(current, q, r);
      }
    } else {
      CopyOrDeleteElsewhere(current, desired, path, q);
    }
  }

  /** With objects above all allowed paths on both sides, normalizing never fails and keeps those objects. */
  lemma {:induction false} NormalizingSucceeds(current: Json, desired: Json, allowed: seq<Path>, done: nat)
    requires current.Object? && AllNonEmpty(allowed) && done <= |allowed|
    requires AllParentsAreObjects(current, allowed) && AllParentsAreObjects(desired, allowed)
    ensures Normalized(current, desired, allowed[..done]).Success?
    ensures forall q | Above(allowed, q) :: ObjectAt(Normalized(current, desired, allowed[..done]).value, q)
    decreases done
  {
    if done == 0 {
      forall q | Above(allowed, q)
        ensures ObjectAt(current, q)
      {
        var k :| IsAbove(allowed, q, k);
        ParentObjectAt(current, allowed[k], q);
      }
    } else {
      NormalizingSucceeds(current, desired, allowed, done - 1);
      var before, path := Normalized(current, desired, allowed[..done - 1]).value, allowed[done - 1];
      assert allowed[..done][..done - 1] == allowed[..done - 1];
      forall q | q < path
        ensures MissingOrObject(before, q) && MissingOrObject(desired, q)
      {
        assert IsAbove(allowed, q, done - 1);
        assert ObjectAt(before, q);
        ParentObjectAt(desired, path, q);
      }
      ParentsFromLookups(before, path);
      ParentsFromLookups(desired, path);
      CopyOrDeleteResult(before, desired, path);
      forall q | Above(allowed, q)
        ensures ObjectAt(Normalized(current, desired, allowed[..done]).value, q)
      {
        var k :| IsAbove(allowed, q, k);
        ParentObjectAt(desired, allowed[k], q);
        CopyOrDeleteKeepsObject(before, desired, path, q);
      }
    }
  }

  ghost function Longest(allowed: seq<Path>): (n: nat)
    ensures forall k | 0 <= k < |allowed| :: |allowed[k]| <= n
  {
    if allowed == [] then 0
    else
      var rest := Longest(allowed[..|allowed| - 1]);
      var last := |allowed[|allowed| - 1]|;
      if last > rest then last else rest
  }

  /** Two trees that agree at and off the allowed paths, with objects above them, are equal below every path. */
  lemma {:induction false} AgreementEverywhere(left: Json, right: Json, allowed: seq<Path>, q: Path)
    requires AgreeOutside(left, right, allowed)
    requires forall k | 0 <= k < |allowed| :: Lookup(left, allowed[k]) == Lookup(right, allowed[k])
    requires forall p | Above(allowed, p) :: Lookup(left, p) == Lookup(right, p) || (ObjectAt(left, p) && ObjectAt(right, p))
    ensures Lookup(left, q) == Lookup(right, q)
    decreases if |q| <= Longest(allowed) then Longest(allowed) + 1 - |q| else 0
  {
    if k :| 0 <= k < |allowed| && allowed[k] <= q {
      var a := allowed[k];
      assert q == a + q[|a|..];
      LookupSplit(left, a, q[|a|..]);
      LookupSplit(right, a, q[|a|..]);
    } else if k :| IsAbove(allowed, q, k) {
      assert Above(allowed, q);
      if ObjectAt(left, q) && ObjectAt(right, q) {
        var l, r := Lookup(left, q).value, Lookup(right, q).value;
        forall key
          ensures key in l.fields <==> key in r.fields
          ensures key in l.fields && key in r.fields ==> l.fields[key] == r.fields[key]
        {
          AgreementEverywhere(left, right, allowed, q + [key]);
          LookupSplit(left, q, [key]);
          LookupSplit(right, q, [key]);
          LookupKey(l, key);
          LookupKey(r, key);
        }
        assert l.fields == r.fields;
      }
    } else {
      assert OffLimits(allowed, q) by {
        forall k | 0 <= k < |allowed|
          ensures Incomparable(allowed[k], q)
        {
          assert !IsAbove(allowed, q, k);
        }
      }
    }
  }

  lemma LookupKey(value: Json, key: string)
    requires value.Object?
    ensures Lookup(value, [key]) == if key in value.fields then Some(value.fields[key]) else None
  {
    if key in value.fields {
      assert Lookup(value.fields[key], []) == Some(value.fields[key]);
    }
  }

  /** A plan is accepted whenever the specs agree off the allowed paths and the parents of those paths are objects in both. */
  lemma AgreementIsAccepted(current: Json, desired: Json, allowed: seq<Path>, patchPath: Path)
    requires current.Object? && desired.Object? && AllNonEmpty(allowed)
    requires AgreeOutside(current, desired, allowed)
    requires AllParentsAreObjects(current, allowed) && AllParentsAreObjects(desired, allowed)
    ensures PlanSpecPatch(current, desired, allowed, patchPath).Success?
  {
    assert allowed[..|allowed|] == allowed;
    NormalizingSucceeds(current, desired, allowed, |allowed|);
    var normalized := Normalized(current, desired, allowed).value;
    forall q | OffLimits(allowed, q)
      ensures Lookup(normalized, q) == Lookup(desired, q)
    {
      NormalizingLeavesOffLimitsAlone(current, desired, allowed, q);
    }
    forall k | 0 <= k < |allowed|
      ensures Lookup(normalized, allowed[k]) == Lookup(desired, allowed[k])
    {
      NormalizingReachesAgreement(current, desired, allowed, k);
    }
    forall p | Above(allowed, p)
      ensures ObjectAt(normalized, p) && ObjectAt(desired, p)
    {
      var k :| IsAbove(allowed, p, k);
      ParentObjectAt(desired, allowed[k], p);
    }
    AgreementEverywhere(normalized, desired, allowed, []);
    assert Lookup(normalized, []) == Some(normalized) && Lookup(desired, []) == Some(desired);
  }

  // ----- exactly which differences are accepted, for allowed paths of which none leads through another -----

  ghost predicate PairwiseIncomparable(allowed: seq<Path>) {
    forall i, j | 0 <= i < j < |allowed| :: Incomparable(allowed[i], allowed[j])
  }

  /** Some allowed path below `q`, among the first `count`, has a value in the desired spec. */
  ghost predicate Brings(desired: Json, allowed: seq<Path>, count: nat, q: Path) {
    exists k :: k < count && IsAbove(allowed, q, k) && Lookup(desired, allowed[k]).Some?
  }

  /** Above the allowed paths there are only objects, and an object the desired spec has there is either already in the
      current spec or comes into being with an allowed value below it. */
  ghost predicate SpineFits(current: Json, desired: Json, allowed: seq<Path>, q: Path) {
    && MissingOrObject(current, q)
    && MissingOrObject(desired, q)
    && (Lookup(desired, q).Some? <==> Lookup(current, q).Some? || Brings(desired, allowed, |allowed|, q))
  }

  lemma {:induction false} LookupsFromParents(value: Json, path: Path, q: Path)
    requires ParentsAreObjectsOrMissing(value, path) && q < path
    ensures MissingOrObject(value, q)
    decreases |path|
  {
    if q != [] {
      assert path[0] == q[0] && q[1..] < path[1..] by {
        assert path == [path[0]] + path[1..] && q == [q[0]] + q[1..];
      }
      if path[0] in value.fields {
        LookupsFromParents(value.fields[path[0]], path[1..], q[1..]);
      }
    }
  }

  lemma {:induction false} WriteAbove(root: Json, path: Path, value: Json, q: Path)
    requires root.Object? && path != [] && q < path && WritePath(root, path, value).Success?
    ensures ObjectAt(WritePath(root, path, value).value, q)
    decreases |path|
  {
    if q != [] {
      assert path[0] == q[0] && q[1..] < path[1..] by {
        assert path == [path[0]] + path[1..] && q == [q[0]] + q[1..];
      }
      var child := if path[0] in root.fields then root.fields[path[0]] else Object(map[]);
      WriteAbove(child, path[1..], value, q[1..]);
    }
  }

  lemma {:induction false} DeleteAbove(root: Json, path: Path, q: Path)
    requires root.Object? && path != [] && q < path && DeletePath(root, path).Success?
    ensures Lookup(DeletePath(root, path).value, q).Some? == Lookup(root, q).Some?
    ensures ObjectAt(DeletePath(root, path).value, q) == ObjectAt(root, q)
    decreases |path|
  {
    if q != [] {
      assert path[0] == q[0] && q[1..] < path[1..] by {
        assert path == [path[0]] + path[1..] && q == [q[0]] + q[1..];
      }
      if path[0] in root.fields {
        DeleteAbove(root.fields[path[0]], path[1..], q[1..]);
      }
    }
  }

  /** What stands above the allowed paths while they are processed. */
  lemma {:induction false} NormalizedSpine(current: Json, desired: Json, allowed: seq<Path>, done: nat, q: Path)
    requires current.Object? && AllNonEmpty(allowed) && PairwiseIncomparable(allowed) && done <= |allowed|
    requires Above(allowed, q) && Normalized(current, desired, allowed[..done]).Success?
    ensures var normalized := Normalized(current, desired, allowed[..done]).value;
      && (Brings(desired, allowed, done, q) ==> ObjectAt(normalized, q))
      && (!Brings(desired, allowed, done, q) ==>
            Lookup(normalized, q).Some? == Lookup(current, q).Some? && ObjectAt(normalized, q) == ObjectAt(current, q))
    ensures forall k | 0 <= k < done && IsAbove(allowed, q, k) :: MissingOrObject(current, q)
    decreases done
  {
    if done > 0 {
      var path := allowed[done - 1];
      assert allowed[..done][..done - 1] == allowed[..done - 1];
      NormalizedSpine(current, desired, allowed, done - 1, q);
      var before := Normalized(current, desired, allowed[..done - 1]).value;
      CopyOrDeleteResult(before, desired, path);
      ReadIsLookup(desired, path);
      if IsAbove(allowed, q, done - 1) {
        LookupsFromParents(before, path, q);
        if Lookup(desired, path).Some? {
          WriteAbove(before, path, Lookup(desired, path).value, q);
        } else {
          DeleteAbove(before, path, q);
        }
      } else {
        var k :| IsAbove(allowed, q, k);
        assert Incomparable(path, allowed[k]);
        assert Incomparable(path, q);
        CopyOrDeleteElsewhere(before, desired, path, q);
      }
    }
  }

  lemma {:induction false} FittingSpineNormalizes(current: Json, desired: Json, allowed: seq<Path>, done: nat)
    requires current.Object? && AllNonEmpty(allowed) && PairwiseIncomparable(allowed) && done <= |allowed|
    requires forall q | Above(allowed, q) :: MissingOrObject(current, q) && MissingOrObject(desired, q)
    ensures Normalized(current, desired, allowed[..done]).Success?
    decreases done
  {
    if done > 0 {
      var path := allowed[done - 1];
      assert allowed[..done][..done - 1] == allowed[..done - 1];
      FittingSpineNormalizes(current, desired, allowed, done - 1);
      var before := Normalized(current, desired, allowed[..done - 1]).value;
      forall q | q < path
        ensures MissingOrObject(before, q) && MissingOrObject(desired, q)
      {
        assert IsAbove(allowed, q, done - 1);
        NormalizedSpine(current, desired, allowed, done - 1, q);
      }
      ParentsFromLookups(before, path);
      ParentsFromLookups(desired, path);
      CopyOrDeleteResult(before, desired, path);
    }
  }

  /** The planner accepts exactly the specs that agree off the allowed paths and whose objects above those paths fit. */
  lemma AcceptanceIsExact(current: Json, desired: Json, allowed: seq<Path>, patchPath: Path)
    requires current.Object? && desired.Object? && AllNonEmpty(allowed) && PairwiseIncomparable(allowed)
    ensures PlanSpecPatch(current, desired, allowed, patchPath).Success?
      <==> current == desired
           || (AgreeOutside(current, desired, allowed) && forall q | Above(allowed, q) :: SpineFits(current, desired, allowed, q))
  {
    assert allowed[..|allowed|] == allowed;
    if current != desired && PlanSpecPatch(current, desired, allowed, patchPath).Success? {
      AcceptedPlansAgreeOutside(current, desired, allowed, patchPath);
      forall q | Above(allowed, q)
        ensures SpineFits(current, desired, allowed, q)
      {
        NormalizedSpine(current, desired, allowed, |allowed|, q);
        var k :| IsAbove(allowed, q, k);
        AcceptedReadsAlong(current, desired, allowed, k);
        LookupsFromParents(desired, allowed[k], q);
      }
    }
    if AgreeOutside(current, desired, allowed) && forall q | Above(allowed, q) :: SpineFits(current, desired, allowed, q) {
      FittingSpineIsAccepted(current, desired, allowed);
    }
  }

  lemma {:induction false} AcceptedReadsAlong(current: Json, desired: Json, allowed: seq<Path>, k: nat)
    requires current.Object? && AllNonEmpty(allowed) && k < |allowed|
    requires Normalized(current, desired, allowed).Success?
    ensures ParentsAreObjectsOrMissing(desired, allowed[k])
    decreases |allowed|
  {
    var rest := allowed[..|allowed| - 1];
    if k < |rest| {
      AcceptedReadsAlong(current, desired, rest, k);
    } else {
      CopyOrDeleteResult(Normalized(current, desired, rest).value, desired, allowed[k]);
    }
  }

  lemma FittingSpineIsAccepted(current: Json, desired: Json, allowed: seq<Path>)
    requires current.Object? && desired.Object? && AllNonEmpty(allowed) && PairwiseIncomparable(allowed)
    requires AgreeOutside(current, desired, allowed)
    requires forall q | Above(allowed, q) :: SpineFits(current, desired, allowed, q)
    ensures Normalized(current, desired, allowed) == Success(desired)
  {
    assert allowed[..|allowed|] == allowed;
    FittingSpineNormalizes(current, desired, allowed, |allowed|);
    var normalized := Normalized(current, desired, allowed).value;
    forall q | OffLimits(allowed, q)
      ensures Lookup(normalized, q) == Lookup(desired, q)
    {
      NormalizingLeavesOffLimitsAlone(current, desired, allowed, q);
    }
    forall k | 0 <= k < |allowed|
      ensures Lookup(normalized, allowed[k]) == Lookup(desired, allowed[k])
    {
      NormalizingReachesAgreement(current, desired, allowed, k);
    }
    forall p | Above(allowed, p)
      ensures Lookup(normalized, p) == Lookup(desired, p) || (ObjectAt(normalized, p) && ObjectAt(desired, p))
    {
      NormalizedSpine(current, desired, allowed, |allowed|, p);
      assert SpineFits(current, desired, allowed, p);
    }
    AgreementEverywhere(normalized, desired, allowed, []);
    assert Lookup(normalized, []) == Some(normalized) && Lookup(desired, []) == Some(desired);
  }

  // ----- what the patch does -----

  function ApplyPatch(document: Json, patch: Patch): Result<Json, PathError>
    requires document.Object? && (patch.Replace? ==> patch.path != [])
  {
    match patch
    case NoPatch => Success(document)
    case Replace(path, value) =>
      if Lookup(document, path).None? then Failure(MissingSpec) else WritePath(document, path, value)
  }

  /** Applying the emitted patch to the object the current spec came from makes its spec the desired one
      and changes nothing off the spec. */
  lemma PatchMakesSpecDesired(document: Json, specPath: Path, current: Json, desired: Json, allowed: seq<Path>, q: Path)
    requires document.Object? && specPath != [] && ReadPath(document, specPath) == Success(Some(current))
    requires current.Object? && desired.Object? && AllNonEmpty(allowed)
    requires PlanSpecPatch(current, desired, allowed, specPath).Success?
    ensures var applied := ApplyPatch(document, PlanSpecPatch(current, desired, allowed, specPath).value);
      && applied.Success?
      && Lookup(applied.value, specPath) == Some(desired)
      && (Incomparable(specPath, q) ==> Lookup(applied.value, q) == Lookup(document, q))
  {
    ReadIsLookup(document, specPath);
    WriteResult(document, specPath, desired);
    if Incomparable(specPath, q) && current != desired {
      WriteElsewhere(document, specPath, desired, q);
    }
  }

  // ----- whole objects -----

  function RequiredMap(root: Json, path: Path): Result<Json, PathError> {
    match ReadPath(root, path)
    case Failure(e) => Failure(e)
    case Success(None) => Failure(MissingSpec)
    case Success(Some(value)) => if value.Object? then Success(value) else Failure(SpecNotObject)
  }

  predicate HasIdentity(root: Json, apiVersion: string, kind: string) {
    && root.Object?
    && "apiVersion" in root.fields && root.fields["apiVersion"] == String(apiVersion)
    && "kind" in root.fields && root.fields["kind"] == String(kind)
  }

  /** planRawObjectPatch (spec at /spec) and planRawTemplatePatch (spec at /spec/template/spec); None is an absent object. */
  function PlanObjectPatch(current: Option<Json>, desired: Option<Json>, apiVersion: string, kind: string,
                           specPath: Path, allowed: seq<Path>): Result<Patch, PathError>
    requires AllNonEmpty(allowed)
  {
    if current.None? || desired.None? then
      if current.None? && desired.None? then Success(NoPatch) else Failure(PresenceChanged)
    else if !HasIdentity(current.value, apiVersion, kind) || !HasIdentity(desired.value, apiVersion, kind) then Failure(UnexpectedIdentity)
    else
      var currentSpec, desiredSpec := RequiredMap(current.value, specPath), RequiredMap(desired.value, specPath);
      if currentSpec.Failure? then Failure(currentSpec.error)
      else if desiredSpec.Failure? then Failure(desiredSpec.error)
      else PlanSpecPatch(currentSpec.value, desiredSpec.value, allowed, specPath)
  }

  /** Both objects say that they are of the expected API version and kind. */
  ghost predicate SaysItIs(root: Json, apiVersion: string, kind: string) {
    && Lookup(root, ["apiVersion"]) == Some(String(apiVersion))
    && Lookup(root, ["kind"]) == Some(String(kind))
  }

  lemma {:induction false} FoundIsReadable(value: Json, path: Path)
    requires Lookup(value, path).Some?
    ensures ReadPath(value, path) == Success(Lookup(value, path))
    decreases |path|
  {
    if path != [] {
      FoundIsReadable(value.fields[path[0]], path[1..]);
    }
  }

  /** Two present objects are planned exactly as their specs are, provided that both are what they should be and have an object as
      their spec; an object that is absent on both sides needs no patch, and one that appears or disappears is refused. */
  lemma ObjectPatchIsTheSpecPatch(current: Json, desired: Json, apiVersion: string, kind: string, specPath: Path, allowed: seq<Path>)
    requires AllNonEmpty(allowed) && current.Object? && desired.Object?
    ensures var plan := PlanObjectPatch(Some(current), Some(desired), apiVersion, kind, specPath, allowed);
      var currentSpec, desiredSpec := Lookup(current, specPath), Lookup(desired, specPath);
      && (plan.Success? <==>
            && SaysItIs(current, apiVersion, kind) && SaysItIs(desired, apiVersion, kind)
            && currentSpec.Some? && currentSpec.value.Object? && desiredSpec.Some? && desiredSpec.value.Object?
            && PlanSpecPatch(currentSpec.value, desiredSpec.value, allowed, specPath).Success?)
      && (plan.Success? ==> plan == PlanSpecPatch(currentSpec.value, desiredSpec.value, allowed, specPath))
    ensures PlanObjectPatch(None, None, apiVersion, kind, specPath, allowed) == Success(NoPatch)
    ensures PlanObjectPatch(Some(current), None, apiVersion, kind, specPath, allowed).Failure?
    ensures PlanObjectPatch(None, Some(desired), apiVersion, kind, specPath, allowed).Failure?
  {
    ReadIsLookup(current, specPath);
    ReadIsLookup(desired, specPath);
    if Lookup(current, specPath).Some? {
      FoundIsReadable(current, specPath);
    }
    if Lookup(desired, specPath).Some? {
      FoundIsReadable(desired, specPath);
    }
    LookupKey(current, "apiVersion");
    LookupKey(current, "kind");
    LookupKey(desired, "apiVersion");
    LookupKey(desired, "kind");
  }

  /** An accepted object patch turns the current object's spec into the desired object's, and the two specs already agreed
      off the allowed paths. */
  lemma ObjectPatchMakesSpecDesired(current: Json, desired: Json, apiVersion: string, kind: string, specPath: Path, allowed: seq<Path>, q: Path)
    requires AllNonEmpty(allowed) && specPath != []
    requires PlanObjectPatch(Some(current), Some(desired), apiVersion, kind, specPath, allowed).Success?
    ensures HasIdentity(current, apiVersion, kind) && HasIdentity(desired, apiVersion, kind)
    ensures Lookup(current, specPath).Some? && Lookup(desired, specPath).Some?
    ensures AgreeOutside(Lookup(current, specPath).value, Lookup(desired, specPath).value, allowed)
    ensures var applied := ApplyPatch(current, PlanObjectPatch(Some(current), Some(desired), apiVersion, kind, specPath, allowed).value);
      && applied.Success?
      && Lookup(applied.value, specPath) == Lookup(desired, specPath)
      && (Incomparable(specPath, q) ==> Lookup(applied.value, q) == Lookup(current, q))
  {
    ReadIsLookup(current, specPath);
    ReadIsLookup(desired, specPath);
    var currentSpec, desiredSpec := Lookup(current, specPath).value, Lookup(desired, specPath).value;
    AcceptedPlansAgreeOutside(currentSpec, desiredSpec, allowed, specPath);
    PatchMakesSpecDesired(current, specPath, currentSpec, desiredSpec, allowed, q);
  }
}
