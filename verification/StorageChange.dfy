/** Which changes of the storage documents of a Talos machine configuration destroy data
    (adapter/talos/configbuilder/classify.go), and what whole sequences of accepted changes can do. */
module StorageChange {
  import opened Wrappers

  datatype VolumeKind = SystemVolume | UserVolume | RawVolume

  /** A configuration document; sizes are unsigned, and a logical volume's zero maximum means "no bound". */
  datatype Document =
    | Volume(kind: VolumeKind, name: string, diskSelector: Option<string>, minSize: Option<nat>, maxSize: Option<nat>)
    | VolumeGroup(name: string, physicalVolumeSelector: string)
    | LogicalVolume(name: string, volumeGroup: string, layout: string, mirrors: nat, stripes: nat,
                    minBytes: nat, maxBytes: nat, maxPercent: nat)
    | OtherDocument(otherKind: string, otherName: Option<string>)

  const STORAGE_KINDS := ["VolumeConfig", "UserVolumeConfig", "RawVolumeConfig", "LVMVolumeGroupConfig", "LVMLogicalVolumeConfig"]

  function Kind(document: Document): string {
    match document
    case Volume(kind, _, _, _, _) =>
      (match kind case SystemVolume => STORAGE_KINDS[0] case UserVolume => STORAGE_KINDS[1] case RawVolume => STORAGE_KINDS[2])
    case VolumeGroup(_, _) => STORAGE_KINDS[3]
    case LogicalVolume(_, _, _, _, _, _, _, _) => STORAGE_KINDS[4]
    case OtherDocument(kind, _) => kind
  }

  function Name(document: Document): Option<string> {
    if document.OtherDocument? then document.otherName else Some(document.name)
  }

  predicate Indexed(document: Document) {
    Name(document).Some? && Kind(document) in STORAGE_KINDS
  }

  function Key(document: Document): string
    requires Indexed(document)
  {
    Kind(document) + "/" + Name(document).value
  }

  /** The part of a key before its first slash. */
  function BeforeSlash(s: string): string {
    if s == [] || s[0] == '/' then [] else [s[0]] + BeforeSlash(s[1..])
  }

  lemma {:induction false} BeforeSlashStops(kind: string, name: string)
    requires '/' !in kind
    ensures BeforeSlash(kind + "/" + name) == kind
  {
    var s := kind + "/" + name;
    if kind == [] {
      assert s[0] == '/';
    } else {
      assert s[0] == kind[0] && s[1..] == kind[1..] + "/" + name;
      BeforeSlashStops(kind[1..], name);
    }
  }

  /** Documents of different kinds never share a key, whatever their names contain. */
  lemma KeyIsInjective(left: Document, right: Document)
    requires Indexed(left) && Indexed(right) && Key(left) == Key(right)
    ensures Kind(left) == Kind(right) && Name(left) == Name(right)
  {
    NoKindHasASlash();
    SplitIsUnique(Kind(left), Name(left).value, Kind(right), Name(right).value);
  }

  lemma NoKindHasASlash()
    ensures forall kind | kind in STORAGE_KINDS :: '/' !in kind
  {
    assert forall k | 0 <= k < |STORAGE_KINDS| :: '/' !in STORAGE_KINDS[k];
  }

  lemma SplitIsUnique(kind: string, name: string, otherKind: string, otherName: string)
    requires '/' !in kind && '/' !in otherKind
    requires kind + "/" + name == otherKind + "/" + otherName
    ensures kind == otherKind && name == otherName
  {
    BeforeSlashStops(kind, name);
    BeforeSlashStops(otherKind, otherName);
    var s, n := kind + "/" + name, |kind| + 1;
    assert name == s[n..] && otherName == (otherKind + "/" + otherName)[n..];
  }

  /** The index with one more document filed: a later document replaces an earlier one of the same key. */
  function File(index: map<string, Document>, document: Document): map<string, Document> {
    if Indexed(document) then index[Key(document) := document] else index
  }

  function Index(documents: seq<Document>): map<string, Document> {
    if documents == [] then map[] else File(Index(documents[..|documents| - 1]), documents[|documents| - 1])
  }

  lemma {:induction false} FiledUnderTheirKeys(documents: seq<Document>, key: string)
    requires key in Index(documents)
    ensures Indexed(Index(documents)[key]) && Key(Index(documents)[key]) == key
  {
    var rest, last := documents[..|documents| - 1], documents[|documents| - 1];
    if !(Indexed(last) && Key(last) == key) {
      FiledUnderTheirKeys(rest, key);
    }
  }

  // ----- which documents count, said without the index -----

  /** What makes a storage document the same one across an update: the name of its kind and its own name. */
  ghost function Identity(document: Document): Option<(string, string)> {
    match document
    case Volume(SystemVolume, name, _, _, _) => Some(("VolumeConfig", name))
    case Volume(UserVolume, name, _, _, _) => Some(("UserVolumeConfig", name))
    case Volume(RawVolume, name, _, _, _) => Some(("RawVolumeConfig", name))
    case VolumeGroup(name, _) => Some(("LVMVolumeGroupConfig", name))
    case LogicalVolume(name, _, _, _, _, _, _, _) => Some(("LVMLogicalVolumeConfig", name))
    case OtherDocument(kind, None) => None
    case OtherDocument(kind, Some(name)) =>
      if || kind == "VolumeConfig" || kind == "UserVolumeConfig" || kind == "RawVolumeConfig"
         || kind == "LVMVolumeGroupConfig" || kind == "LVMLogicalVolumeConfig"
      then Some((kind, name)) else None
  }

  /** The document at `i` is a storage document, and no later one replaces it. */
  ghost predicate InForce(documents: seq<Document>, i: int)
    requires 0 <= i < |documents|
  {
    && Identity(documents[i]).Some?
    && forall j | i < j < |documents| :: Identity(documents[j]) != Identity(documents[i])
  }

  /** The change of one storage document keeps its data: nothing that places it differs and no stated bound shrinks. */
  ghost predicate AcceptedChange(active: Document, desired: Document) {
    match active
    case Volume(_, _, diskSelector, minSize, maxSize) =>
      && desired.Volume? && desired.diskSelector == diskSelector
      && (minSize.Some? && desired.minSize.Some? ==> desired.minSize.value >= minSize.value)
      && (maxSize.Some? <==> desired.maxSize.Some?)
      && (maxSize.Some? ==> desired.maxSize.value >= maxSize.value)
    case VolumeGroup(_, selector) => desired.VolumeGroup? && desired.physicalVolumeSelector == selector
    case LogicalVolume(_, group, layout, mirrors, stripes, minBytes, maxBytes, maxPercent) =>
      && desired.LogicalVolume? && desired.volumeGroup == group && desired.layout == layout
      && desired.mirrors == mirrors && desired.stripes == stripes && desired.maxPercent == maxPercent
      && desired.minBytes >= minBytes
      && (maxBytes != 0 && desired.maxBytes != 0 ==> desired.maxBytes >= maxBytes)
    case OtherDocument(_, _) => false
  }

  /** `desired` still has the document at `i` of `active`, changed at most in an accepted way. */
  ghost predicate Survives(active: seq<Document>, i: int, desired: seq<Document>)
    requires 0 <= i < |active|
  {
    exists j | 0 <= j < |desired| && InForce(desired, j) ::
      Identity(desired[j]) == Identity(active[i]) && AcceptedChange(active[i], desired[j])
  }

  lemma IdentityIsKindAndName(document: Document)
    ensures Identity(document).Some? <==> Indexed(document)
    ensures Identity(document).Some? ==> Identity(document).value == (Kind(document), Name(document).value)
  {
    assert STORAGE_KINDS[0] == "VolumeConfig" && STORAGE_KINDS[1] == "UserVolumeConfig" && STORAGE_KINDS[2] == "RawVolumeConfig";
    assert STORAGE_KINDS[3] == "LVMVolumeGroupConfig" && STORAGE_KINDS[4] == "LVMLogicalVolumeConfig";
  }

  lemma SameKeyIffSameIdentity(left: Document, right: Document)
    requires Indexed(left) && Indexed(right)
    ensures Key(left) == Key(right) <==> Identity(left) == Identity(right)
  {
    IdentityIsKindAndName(left);
    IdentityIsKindAndName(right);
    if Key(left) == Key(right) {
      KeyIsInjective(left, right);
    }
  }

  lemma {:induction false} InForceIsFiled(documents: seq<Document>, i: int)
    requires 0 <= i < |documents| && InForce(documents, i)
    ensures Indexed(documents[i]) && Key(documents[i]) in Index(documents) && Index(documents)[Key(documents[i])] == documents[i]
  {
    IdentityIsKindAndName(documents[i]);
    var rest, last := documents[..|documents| - 1], documents[|documents| - 1];
    if i < |rest| {
      InForceIsFiled(rest, i);
      if Indexed(last) {
        SameKeyIffSameIdentity(documents[i], last);
      }
    }
  }

  lemma {:induction false} FiledIsInForce(documents: seq<Document>, key: string) returns (i: int)
    requires key in Index(documents)
    ensures 0 <= i < |documents| && InForce(documents, i) && Index(documents)[key] == documents[i]
    ensures Indexed(documents[i]) && Key(documents[i]) == key
  {
    var rest, last := documents[..|documents| - 1], documents[|documents| - 1];
    IdentityIsKindAndName(last);
    if Indexed(last) && Key(last) == key {
      i := |rest|;
    } else {
      i := FiledIsInForce(rest, key);
      if Indexed(last) {
        SameKeyIffSameIdentity(documents[i], last);
      }
    }
  }

  /** The index holds exactly the storage documents that no later one replaces, each under its kind and name. */
  lemma IndexMeaning(documents: seq<Document>)
    ensures forall i | 0 <= i < |documents| && InForce(documents, i) ::
      var id := Identity(documents[i]).value;
      id.0 + "/" + id.1 in Index(documents) && Index(documents)[id.0 + "/" + id.1] == documents[i]
    ensures forall key | key in Index(documents) ::
      exists i | 0 <= i < |documents| && InForce(documents, i) ::
        Index(documents)[key] == documents[i] && key == Identity(documents[i]).value.0 + "/" + Identity(documents[i]).value.1
  {
    forall i | 0 <= i < |documents| && InForce(documents, i)
      ensures var id := Identity(documents[i]).value;
        id.0 + "/" + id.1 in Index(documents) && Index(documents)[id.0 + "/" + id.1] == documents[i]
    {
      InForceIsFiled(documents, i);
      IdentityIsKindAndName(documents[i]);
    }
    forall key | key in Index(documents)
      ensures exists i | 0 <= i < |documents| && InForce(documents, i) ::
        Index(documents)[key] == documents[i] && key == Identity(documents[i]).value.0 + "/" + Identity(documents[i]).value.1
    {
      var i := FiledIsInForce(documents, key);
      IdentityIsKindAndName(documents[i]);
    }
  }

  method IndexNamedDocuments(documents: seq<Document>) returns (index: map<string, Document>)
    ensures index == Index(documents)
    ensures forall i | 0 <= i < |documents| && InForce(documents, i) ::
      var id := Identity(documents[i]).value;
      id.0 + "/" + id.1 in index && index[id.0 + "/" + id.1] == documents[i]
    ensures forall key | key in index ::
      exists i | 0 <= i < |documents| && InForce(documents, i) ::
        index[key] == documents[i] && key == Identity(documents[i]).value.0 + "/" + Identity(documents[i]).value.1
  {
    index := map[];
    for i := 0 to |documents|
      invariant index == Index(documents[..i])
    {
      assert documents[..i + 1][..i] == documents[..i];
      var document := documents[i];
      if Name(document).Some? && Kind(document) in STORAGE_KINDS {
        index := index[Kind(document) + "/" + Name(document).value := document];
      }
    }
    assert documents[..|documents|] == documents;
    IndexMeaning(documents);
  }

  datatype Reason =
    | DocumentRemoved | Unrecognized | DiskSelectorChanged | MinimumShrank | MaximumShrank | BoundChanged
    | VolumeGroupChanged | LayoutChanged | MirrorsOrStripesChanged | PercentageChanged

  function DestructiveVolumeProvisioningChange(active: Document, desired: Document): Option<Reason>
    requires active.Volume? && desired.Volume?
  {
    if active.diskSelector != desired.diskSelector then Some(DiskSelectorChanged)
    else if active.minSize.Some? && desired.minSize.Some? && desired.minSize.value < active.minSize.value then Some(MinimumShrank)
    else if active.maxSize.Some? && desired.maxSize.Some? && desired.maxSize.value < active.maxSize.value then Some(MaximumShrank)
    else if active.maxSize.Some? != desired.maxSize.Some? then Some(BoundChanged)
    else None
  }

  function DestructiveLVMLogicalVolumeChange(active: Document, desired: Document): Option<Reason>
    requires active.LogicalVolume? && desired.LogicalVolume?
  {
    if active.volumeGroup != desired.volumeGroup then Some(VolumeGroupChanged)
    else if active.layout != desired.layout then Some(LayoutChanged)
    else if active.mirrors != desired.mirrors || active.stripes != desired.stripes then Some(MirrorsOrStripesChanged)
    else if desired.minBytes < active.minBytes then Some(MinimumShrank)
    else if active.maxPercent != desired.maxPercent then Some(PercentageChanged)
    else if active.maxBytes != 0 && desired.maxBytes != 0 && desired.maxBytes < active.maxBytes then Some(MaximumShrank)
    else None
  }

  function DestructiveStorageDocumentChange(active: Document, desired: Document): Option<Reason> {
    if Kind(active) in STORAGE_KINDS[..3] then
      if !active.Volume? || !desired.Volume? then Some(Unrecognized)
      else DestructiveVolumeProvisioningChange(active, desired)
    else if Kind(active) == STORAGE_KINDS[3] then
      if !active.VolumeGroup? || !desired.VolumeGroup? then Some(Unrecognized)
      else if active.physicalVolumeSelector != desired.physicalVolumeSelector then Some(DiskSelectorChanged)
      else None
    else if Kind(active) == STORAGE_KINDS[4] then
      if !active.LogicalVolume? || !desired.LogicalVolume? then Some(Unrecognized)
      else DestructiveLVMLogicalVolumeChange(active, desired)
    else Some(Unrecognized)
  }

  /** Why the document filed under `key` stops the update, if it does. */
  function Objection(active: seq<Document>, desired: seq<Document>, key: string): Option<Reason>
    requires key in Index(active)
  {
    if key !in Index(desired) then Some(DocumentRemoved)
    else DestructiveStorageDocumentChange(Index(active)[key], Index(desired)[key])
  }

  ghost predicate StorageAccepted(active: seq<Document>, desired: seq<Document>) {
    forall key | key in Index(active) :: Objection(active, desired, key).None?
  }

  /** The test over the two indexes is the statement over the documents themselves. */
  lemma AcceptedIffAllSurvive(active: seq<Document>, desired: seq<Document>)
    ensures StorageAccepted(active, desired) <==> forall i | 0 <= i < |active| && InForce(active, i) :: Survives(active, i, desired)
  {
    forall i | 0 <= i < |active| && InForce(active, i)
      ensures Indexed(active[i]) && Key(active[i]) in Index(active)
      ensures Objection(active, desired, Key(active[i])).None? <==> Survives(active, i, desired)
    {
      InForceIsFiled(active, i);
      UnobjectedIffSurvives(active, i, desired);
    }
    forall key | key in Index(active)
      ensures exists i | 0 <= i < |active| && InForce(active, i) :: Indexed(active[i]) && Key(active[i]) == key
    {
      var i := FiledIsInForce(active, key);
    }
  }

  lemma UnobjectedIffSurvives(active: seq<Document>, i: int, desired: seq<Document>)
    requires 0 <= i < |active| && InForce(active, i)
    requires Indexed(active[i]) && Key(active[i]) in Index(active) && Index(active)[Key(active[i])] == active[i]
    ensures Objection(active, desired, Key(active[i])).None? <==> Survives(active, i, desired)
  {
    var key := Key(active[i]);
    if key in Index(desired) {
      var j := FiledIsInForce(desired, key);
      SameKeyIffSameIdentity(active[i], desired[j]);
      AcceptanceMeaning(active[i], desired[j]);
    }
    forall j | 0 <= j < |desired| && InForce(desired, j) && Identity(desired[j]) == Identity(active[i])
      ensures key in Index(desired) && Index(desired)[key] == desired[j]
    {
      InForceIsFiled(desired, j);
      SameKeyIffSameIdentity(active[i], desired[j]);
      AcceptanceMeaning(active[i], desired[j]);
    }
  }

  /** Go visits a map in any order, so with several objections any one of them is reported. */
  method DestructiveStorageChange(active: seq<Document>, desired: seq<Document>) returns (reason: Option<Reason>)
    ensures reason.None? <==> forall i | 0 <= i < |active| && InForce(active, i) :: Survives(active, i, desired)
    ensures reason.None? <==> StorageAccepted(active, desired)
    ensures reason.Some? ==> exists key :: key in Index(active) && Objection(active, desired, key) == reason
  {
    AcceptedIffAllSurvive(active, desired);
    var activeDocuments := IndexNamedDocuments(active);
    var desiredDocuments := IndexNamedDocuments(desired);
    var remaining := activeDocuments.Keys;
    while remaining != {}
      invariant remaining <= activeDocuments.Keys
      invariant forall key | key in activeDocuments && key !in remaining :: Objection(active, desired, key).None?
    {
      var key :| key in remaining;
      if key !in desiredDocuments {
        assert Objection(active, desired, key) == Some(DocumentRemoved);
        return Some(DocumentRemoved);
      }
      reason := DestructiveStorageDocumentChange(activeDocuments[key], desiredDocuments[key]);
      if reason.Some? {
        assert Objection(active, desired, key) == reason;
        return;
      }
      remaining := remaining - {key};
    }
    return None;
  }

  // ----- what any number of accepted changes keeps -----

  /** What data loss would have to change. A volume's minimum and a logical volume's byte maximum are not part of it. */
  ghost predicate Kept(active: Document, desired: Document) {
    match active
    case Volume(_, _, diskSelector, _, maxSize) =>
      && desired.Volume? && desired.diskSelector == diskSelector
      && desired.maxSize.Some? == maxSize.Some?
      && (maxSize.Some? ==> desired.maxSize.value >= maxSize.value)
    case VolumeGroup(_, selector) => desired.VolumeGroup? && desired.physicalVolumeSelector == selector
    case LogicalVolume(_, group, layout, mirrors, stripes, minBytes, _, maxPercent) =>
      && desired.LogicalVolume? && desired.volumeGroup == group && desired.layout == layout
      && desired.mirrors == mirrors && desired.stripes == stripes && desired.maxPercent == maxPercent
      && desired.minBytes >= minBytes
    case OtherDocument(_, _) => false
  }

  ghost predicate StorageKept(active: seq<Document>, desired: seq<Document>) {
    forall key | key in Index(active) :: key in Index(desired) && Kept(Index(active)[key], Index(desired)[key])
  }

  /** One accepted change keeps everything in Kept and, where both sides state them, the two remaining bounds. */
  lemma AcceptanceMeaning(active: Document, desired: Document)
    requires Indexed(active)
    ensures DestructiveStorageDocumentChange(active, desired).None? <==> AcceptedChange(active, desired)
    ensures DestructiveStorageDocumentChange(active, desired).None? <==>
            && Kept(active, desired)
            && (active.Volume? && active.minSize.Some? && desired.minSize.Some? ==> desired.minSize.value >= active.minSize.value)
            && (active.LogicalVolume? && active.maxBytes != 0 && desired.maxBytes != 0 ==> desired.maxBytes >= active.maxBytes)
  {
    assert STORAGE_KINDS[..3] == ["VolumeConfig", "UserVolumeConfig", "RawVolumeConfig"];
    KindsDiffer();
  }

  lemma KindsDiffer()
    ensures forall i, j | 0 <= i < j < |STORAGE_KINDS| :: STORAGE_KINDS[i] != STORAGE_KINDS[j]
  {
    assert STORAGE_KINDS[0][0] == 'V' && STORAGE_KINDS[1][0] == 'U' && STORAGE_KINDS[2][0] == 'R';
    assert STORAGE_KINDS[3][0] == 'L' && STORAGE_KINDS[4][0] == 'L';
    assert STORAGE_KINDS[3][3] == 'V' && STORAGE_KINDS[4][3] == 'L';
  }

  lemma AcceptedIsKept(active: seq<Document>, desired: seq<Document>)
    requires StorageAccepted(active, desired)
    ensures StorageKept(active, desired)
  {
    forall key | key in Index(active)
      ensures key in Index(desired) && Kept(Index(active)[key], Index(desired)[key])
    {
      assert Objection(active, desired, key).None?;
      FiledUnderTheirKeys(active, key);
      AcceptanceMeaning(Index(active)[key], Index(desired)[key]);
    }
  }

  lemma KeptIsTransitive(a: seq<Document>, b: seq<Document>, c: seq<Document>)
    requires StorageKept(a, b) && StorageKept(b, c)
    ensures StorageKept(a, c)
  {
    forall key | key in Index(a)
      ensures key in Index(c) && Kept(Index(a)[key], Index(c)[key])
    {
      assert Kept(Index(a)[key], Index(b)[key]) && Kept(Index(b)[key], Index(c)[key]);
    }
  }

  ghost predicate AcceptedAt(run: seq<seq<Document>>, k: int)
    requires 0 <= k < |run| - 1
  {
    StorageAccepted(run[k], run[k + 1])
  }

  ghost predicate UpdateRun(run: seq<seq<Document>>) {
    |run| >= 2 && forall k | 0 <= k < |run| - 1 :: AcceptedAt(run, k)
  }

  lemma {:induction false} RunKeepsStorage(run: seq<seq<Document>>, n: nat)
    requires UpdateRun(run) && 0 < n < |run|
    ensures StorageKept(run[0], run[n])
  {
    assert AcceptedAt(run, n - 1);
    AcceptedIsKept(run[n - 1], run[n]);
    if n > 1 {
      RunKeepsStorage(run, n - 1);
      KeptIsTransitive(run[0], run[n - 1], run[n]);
    }
  }

  /** A document without the two bounds that are compared only when both sides state them. */
  function Relaxed(document: Document): Document {
    match document
    case Volume(_, _, _, _, _) => document.(minSize := None)
    case LogicalVolume(_, _, _, _, _, _, _, _) => document.(maxBytes := 0)
    case _ => document
  }

  predicate Selected(document: Document, keys: set<string>) {
    Indexed(document) && Key(document) in keys
  }

  /** The documents filed under `keys`, relaxed. */
  function RelaxedUnder(documents: seq<Document>, keys: set<string>): seq<Document> {
    if documents == [] then []
    else
      var last := documents[|documents| - 1];
      var rest := RelaxedUnder(documents[..|documents| - 1], keys);
      if Selected(last, keys) then rest + [Relaxed(last)] else rest
  }

  function RelaxedIndex(index: map<string, Document>, keys: set<string>): map<string, Document> {
    map key | key in index && key in keys :: Relaxed(index[key])
  }

  lemma IndexAppend(documents: seq<Document>, last: Document)
    ensures Index(documents + [last]) == File(Index(documents), last)
  {
    assert (documents + [last])[..|documents|] == documents;
  }

  lemma FileRelaxed(index: map<string, Document>, document: Document, keys: set<string>)
    ensures RelaxedIndex(File(index, document), keys) ==
            if Selected(document, keys) then File(RelaxedIndex(index, keys), Relaxed(document)) else RelaxedIndex(index, keys)
  {
    assert Indexed(Relaxed(document)) == Indexed(document);
    assert Indexed(document) ==> Key(Relaxed(document)) == Key(document);
  }

  lemma {:induction false} IndexOfRelaxed(documents: seq<Document>, keys: set<string>)
    ensures Index(RelaxedUnder(documents, keys)) == RelaxedIndex(Index(documents), keys)
  {
    if documents != [] {
      var rest, last := documents[..|documents| - 1], documents[|documents| - 1];
      IndexOfRelaxed(rest, keys);
      FileRelaxed(Index(rest), last, keys);
      IndexAppend(RelaxedUnder(rest, keys), Relaxed(last));
    }
  }

  /** Whatever is kept can be reached in two accepted updates: first drop the conditional bounds, then restate them. */
  lemma TwoUpdatesSuffice(active: seq<Document>, desired: seq<Document>) returns (between: seq<Document>)
    requires StorageKept(active, desired)
    ensures StorageAccepted(active, between) && StorageAccepted(between, desired)
  {
    between := RelaxedUnder(desired, Index(active).Keys);
    IndexOfRelaxed(desired, Index(active).Keys);
    forall key | key in Index(active)
      ensures Objection(active, between, key).None? && Objection(between, desired, key).None?
    {
      assert Kept(Index(active)[key], Index(desired)[key]);
      FiledUnderTheirKeys(active, key);
      FiledUnderTheirKeys(between, key);
      AcceptanceMeaning(Index(active)[key], Index(between)[key]);
      AcceptanceMeaning(Index(between)[key], Index(desired)[key]);
    }
    assert Index(between).Keys == Index(active).Keys;
  }

  /** Kept describes exactly what sequences of accepted updates can reach: no weaker law holds of them, no stronger one. */
  lemma ReachableIffKept(active: seq<Document>, desired: seq<Document>)
    ensures (exists run :: UpdateRun(run) && run[0] == active && run[|run| - 1] == desired) <==> StorageKept(active, desired)
  {
    forall run | UpdateRun(run) && run[0] == active && run[|run| - 1] == desired
      ensures StorageKept(active, desired)
    {
      RunKeepsStorage(run, |run| - 1);
    }
    if StorageKept(active, desired) {
      var between := TwoUpdatesSuffice(active, desired);
      var run := [active, between, desired];
      assert AcceptedAt(run, 0) && AcceptedAt(run, 1);
      assert UpdateRun(run) && run[0] == active && run[|run| - 1] == desired;
    }
  }

  /** So a shrinking volume minimum, refused in one update, passes in two. */
  lemma BoundsRefusedInOneStepPassInTwo(volume: Document, grown: nat)
    requires volume.Volume? && volume.minSize.Some? && grown > volume.minSize.value
    ensures !StorageAccepted([volume.(minSize := Some(grown))], [volume])
    ensures exists between :: StorageAccepted([volume.(minSize := Some(grown))], between) && StorageAccepted(between, [volume])
  {
    var large := volume.(minSize := Some(grown));
    assert Indexed(large) && Indexed(volume) && Key(large) == Key(volume);
    assert Index([large]) == map[Key(large) := large] by { assert [large][..0] == []; }
    assert Index([volume]) == map[Key(large) := volume] by { assert [volume][..0] == []; }
    AcceptanceMeaning(large, volume);
    assert Objection([large], [volume], Key(large)).Some?;
    var between := TwoUpdatesSuffice([large], [volume]);
  }

  /** An update judged against `seen` is safe for the node's real documents, whatever it contains, exactly when
      those documents are kept in `seen` itself. */
  lemma StaleObservationIsHarmlessIff(seen: seq<Document>, actual: seq<Document>)
    requires StorageAccepted(seen, seen)
    ensures (forall desired | StorageAccepted(seen, desired) :: StorageKept(actual, desired)) <==> StorageKept(actual, seen)
  {
    if StorageKept(actual, seen) {
      forall desired | StorageAccepted(seen, desired)
        ensures StorageKept(actual, desired)
      {
        AcceptedIsKept(seen, desired);
        KeptIsTransitive(actual, seen, desired);
      }
    }
  }

  // ----- updates that fit a staged configuration but not the active one -----

  /** The bounds that are compared only when both sides state them, and that a later update could undercut. */
  ghost predicate StatesBounds(active: Document, staged: Document) {
    && (active.Volume? && active.minSize.Some? && active.minSize.value > 0 ==> staged.Volume? && staged.minSize.Some?)
    && (active.LogicalVolume? && active.maxBytes > 1 ==> staged.LogicalVolume? && staged.maxBytes != 0)
  }

  ghost predicate RestatesBounds(active: seq<Document>, staged: seq<Document>) {
    forall key | key in Index(active) :: key in Index(staged) && StatesBounds(Index(active)[key], Index(staged)[key])
  }

  /** Every update the staged documents accept is accepted by the active ones too exactly when the staged documents are
      accepted themselves and drop none of those bounds. */
  lemma NothingFitsOnlyTheStagedIff(active: seq<Document>, staged: seq<Document>)
    requires StorageAccepted(staged, staged)
    ensures (forall desired | StorageAccepted(staged, desired) :: StorageAccepted(active, desired))
      <==> StorageAccepted(active, staged) && RestatesBounds(active, staged)
  {
    if StorageAccepted(active, staged) && RestatesBounds(active, staged) {
      forall desired | StorageAccepted(staged, desired)
        ensures StorageAccepted(active, desired)
      {
        RestatedBoundsCarryOver(active, staged, desired);
      }
    } else if StorageAccepted(active, staged) {
      var key :| key in Index(active) && !(key in Index(staged) && StatesBounds(Index(active)[key], Index(staged)[key]));
      var desired := UndercutsTheDroppedBound(active, staged, key);
      assert StorageAccepted(staged, desired) && !StorageAccepted(active, desired);
    }
  }

  lemma RestatedBoundsCarryOver(active: seq<Document>, staged: seq<Document>, desired: seq<Document>)
    requires StorageAccepted(active, staged) && RestatesBounds(active, staged) && StorageAccepted(staged, desired)
    ensures StorageAccepted(active, desired)
  {
    forall key | key in Index(active)
      ensures Objection(active, desired, key).None?
    {
      assert Objection(active, staged, key).None? && Objection(staged, desired, key).None?;
      FiledUnderTheirKeys(active, key);
      FiledUnderTheirKeys(staged, key);
      AcceptanceMeaning(Index(active)[key], Index(staged)[key]);
      AcceptanceMeaning(Index(staged)[key], Index(desired)[key]);
      AcceptanceMeaning(Index(active)[key], Index(desired)[key]);
    }
  }

  /** Where a bound was dropped, an update that undercuts the old one fits the staged documents only. */
  lemma UndercutsTheDroppedBound(active: seq<Document>, staged: seq<Document>, key: string) returns (desired: seq<Document>)
    requires StorageAccepted(staged, staged) && StorageAccepted(active, staged)
    requires key in Index(active) && !(key in Index(staged) && StatesBounds(Index(active)[key], Index(staged)[key]))
    ensures StorageAccepted(staged, desired) && !StorageAccepted(active, desired)
  {
    assert Objection(active, staged, key).None?;
    var a, s := Index(active)[key], Index(staged)[key];
    FiledUnderTheirKeys(active, key);
    FiledUnderTheirKeys(staged, key);
    AcceptanceMeaning(a, s);
    var d := if a.Volume? then s.(minSize := Some(a.minSize.value - 1)) else s.(maxBytes := a.maxBytes - 1);
    desired := staged + [d];
    IndexAppend(staged, d);
    assert Indexed(d) && Key(d) == key;
    forall k | k in Index(staged)
      ensures Objection(staged, desired, k).None?
    {
      assert Objection(staged, staged, k).None?;
      if k == key {
        AcceptanceMeaning(s, s);
        AcceptanceMeaning(s, d);
      }
    }
    AcceptanceMeaning(a, d);
    assert Objection(active, desired, key).Some?;
  }
}
