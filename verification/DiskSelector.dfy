/** Stable selectors for a disk, and the choice of the one that names it alone (domain/bootstrap/diskselector.go). */
module DiskSelector {
  import opened Wrappers

  datatype Disk = Disk(devicePath: string, sizeBytes: nat, model: string, serial: string, wwid: string, busPath: string, transport: string,
                       rotational: bool, readOnly: bool)

  /** The atoms of the CEL expressions. */
  datatype Atom =
    | NotReadOnly | SizeIs(bytes: nat) | WWIDIs(wwid: string) | SerialIs(serial: string) | BusPathIs(busPath: string)
    | ModelIs(model: string) | IsRotational | NotRotational

  predicate Holds(atom: Atom, disk: Disk) {
    match atom
    case NotReadOnly => !disk.readOnly
    case SizeIs(bytes) => disk.sizeBytes == bytes
    case WWIDIs(wwid) => disk.wwid == wwid
    case SerialIs(serial) => disk.serial == serial
    case BusPathIs(busPath) => disk.busPath == busPath
    case ModelIs(model) => disk.model == model
    case IsRotational => disk.rotational
    case NotRotational => !disk.rotational
  }

  /** What Talos evaluates: the conjunction of the atoms. */
  predicate Accepts(expression: seq<Atom>, disk: Disk) {
    forall atom | atom in expression :: Holds(atom, disk)
  }

  /** An expression for Talos together with the closure the provider evaluates itself. */
  datatype Selector = Selector(expression: seq<Atom>, matches: Disk -> bool)
  {
    function And(atom: Atom, condition: Disk -> bool): Selector {
      Selector(expression + [atom], candidate => matches(candidate) && condition(candidate))
    }
  }

  // The closures' conditions.

  function SameWWID(disk: Disk): Disk -> bool {
    (candidate: Disk) => candidate.wwid == disk.wwid
  }

  function SameSerial(disk: Disk): Disk -> bool {
    (candidate: Disk) => candidate.serial == disk.serial
  }

  function SameBusPath(disk: Disk): Disk -> bool {
    (candidate: Disk) => candidate.busPath == disk.busPath
  }

  function SameModel(disk: Disk): Disk -> bool {
    (candidate: Disk) => candidate.model == disk.model
  }

  function SameRotation(disk: Disk): Disk -> bool {
    if disk.rotational then (candidate: Disk) => candidate.rotational else (candidate: Disk) => !candidate.rotational
  }

  function BaseSelector(disk: Disk): Selector {
    Selector([NotReadOnly, SizeIs(disk.sizeBytes)], (candidate: Disk) => !candidate.readOnly && candidate.sizeBytes == disk.sizeBytes)
  }

  function WithModel(selector: Selector, disk: Disk, blank: string -> bool): Selector {
    if blank(disk.model) then selector else selector.And(ModelIs(disk.model), SameModel(disk))
  }

  /** From the most specific selector to the least; `blank` says that nothing is left after trimming white space. */
  function DiskSelectorsFor(disk: Disk, blank: string -> bool): (selectors: seq<Selector>)
    ensures selectors != []
  {
    var base := BaseSelector(disk);
    var byWWID := base.And(WWIDIs(disk.wwid), SameWWID(disk));
    var bySerial := WithModel(base.And(SerialIs(disk.serial), SameSerial(disk)), disk, blank);
    var byBusPath := WithModel(base.And(BusPathIs(disk.busPath), SameBusPath(disk)), disk, blank);
    var general := WithModel(base, disk, blank);
    var last := general.And(if disk.rotational then IsRotational else NotRotational, SameRotation(disk));
    (if blank(disk.wwid) then [] else [byWWID])
    + (if blank(disk.serial) then [] else [bySerial])
    + (if blank(disk.busPath) then [] else [byBusPath])
    + [last]
  }

  /** The provider and Talos agree on a selector. */
  ghost predicate Faithful(selector: Selector) {
    forall candidate :: selector.matches(candidate) <==> Accepts(selector.expression, candidate)
  }

  lemma AndStaysFaithful(selector: Selector, atom: Atom, condition: Disk -> bool)
    requires Faithful(selector) && forall candidate :: condition(candidate) <==> Holds(atom, candidate)
    ensures Faithful(selector.And(atom, condition))
  {
    forall candidate
      ensures selector.And(atom, condition).matches(candidate) <==> Accepts(selector.expression + [atom], candidate)
    {
      assert Accepts(selector.expression + [atom], candidate) ==> Holds(atom, candidate) by {
        assert atom in selector.expression + [atom];
      }
    }
  }

  lemma WithModelStaysFaithful(selector: Selector, disk: Disk, blank: string -> bool)
    requires Faithful(selector)
    ensures Faithful(WithModel(selector, disk, blank))
  {
    AndStaysFaithful(selector, ModelIs(disk.model), SameModel(disk));
  }

  lemma BaseIsFaithful(disk: Disk)
    ensures Faithful(BaseSelector(disk))
  {
    forall candidate
      ensures BaseSelector(disk).matches(candidate) <==> Accepts(BaseSelector(disk).expression, candidate)
    {
      assert NotReadOnly in BaseSelector(disk).expression && SizeIs(disk.sizeBytes) in BaseSelector(disk).expression;
    }
  }

  /** Every selector means the same to the provider as to Talos. */
  lemma SelectorsAreFaithful(disk: Disk, blank: string -> bool)
    ensures forall selector | selector in DiskSelectorsFor(disk, blank) :: Faithful(selector)
  {
    var base := BaseSelector(disk);
    BaseIsFaithful(disk);
    AndStaysFaithful(base, WWIDIs(disk.wwid), SameWWID(disk));
    AndStaysFaithful(base, SerialIs(disk.serial), SameSerial(disk));
    WithModelStaysFaithful(base.And(SerialIs(disk.serial), SameSerial(disk)), disk, blank);
    AndStaysFaithful(base, BusPathIs(disk.busPath), SameBusPath(disk));
    WithModelStaysFaithful(base.And(BusPathIs(disk.busPath), SameBusPath(disk)), disk, blank);
    WithModelStaysFaithful(base, disk, blank);
    AndStaysFaithful(WithModel(base, disk, blank), if disk.rotational then IsRotational else NotRotational, SameRotation(disk));
  }

  /** A selector accepts the disk it was made for exactly when that disk is writable. */
  lemma SelectorAcceptsItsDiskIff(disk: Disk, blank: string -> bool)
    ensures forall selector | selector in DiskSelectorsFor(disk, blank) :: selector.matches(disk) <==> !disk.readOnly
  {
  }

  /** The expression accepts entry `i` of the inventory and no other. */
  ghost predicate NamesOnly(expression: seq<Atom>, inventory: seq<Disk>, i: int) {
    && 0 <= i < |inventory| && Accepts(expression, inventory[i])
    && forall j | 0 <= j < |inventory| && j != i :: !Accepts(expression, inventory[j])
  }

  /** Selector `s` has this expression and is the first that names an entry alone. */
  ghost predicate FirstToName(selectors: seq<Selector>, inventory: seq<Disk>, s: int, expression: seq<Atom>)
    requires 0 <= s < |selectors|
  {
    && selectors[s].expression == expression
    && (exists i :: NamesOnly(expression, inventory, i))
    && forall t, i | 0 <= t < s :: !NamesOnly(selectors[t].expression, inventory, i)
  }

  /** Entry `j` is another one that is writable and as large as entry `i`. */
  ghost predicate Rivals(inventory: seq<Disk>, i: int, j: int)
    requires 0 <= i < |inventory| && 0 <= j < |inventory|
  {
    j != i && !inventory[j].readOnly && inventory[j].sizeBytes == inventory[i].sizeBytes
  }

  ghost predicate RivalByWWID(inventory: seq<Disk>, i: int)
    requires 0 <= i < |inventory|
  {
    exists j | 0 <= j < |inventory| :: Rivals(inventory, i, j) && inventory[j].wwid == inventory[i].wwid
  }

  ghost predicate RivalBySerial(inventory: seq<Disk>, i: int, modelToo: bool)
    requires 0 <= i < |inventory|
  {
    exists j | 0 <= j < |inventory| ::
      Rivals(inventory, i, j) && inventory[j].serial == inventory[i].serial && (modelToo ==> inventory[j].model == inventory[i].model)
  }

  ghost predicate RivalByBusPath(inventory: seq<Disk>, i: int, modelToo: bool)
    requires 0 <= i < |inventory|
  {
    exists j | 0 <= j < |inventory| ::
      Rivals(inventory, i, j) && inventory[j].busPath == inventory[i].busPath && (modelToo ==> inventory[j].model == inventory[i].model)
  }

  ghost predicate RivalByRotation(inventory: seq<Disk>, i: int, modelToo: bool)
    requires 0 <= i < |inventory|
  {
    exists j | 0 <= j < |inventory| ::
      Rivals(inventory, i, j) && inventory[j].rotational == inventory[i].rotational && (modelToo ==> inventory[j].model == inventory[i].model)
  }

  /** Entry `i` has a rival in everything its selectors look at: its WWID, its serial number with its model, its bus path with its
      model, and its rotation with its model; a blank WWID, serial number or bus path is not looked at, nor is a blank model. */
  ghost predicate Indistinguishable(inventory: seq<Disk>, i: int, blank: string -> bool)
    requires 0 <= i < |inventory|
  {
    var disk := inventory[i];
    && (!blank(disk.wwid) ==> RivalByWWID(inventory, i))
    && (!blank(disk.serial) ==> RivalBySerial(inventory, i, !blank(disk.model)))
    && (!blank(disk.busPath) ==> RivalByBusPath(inventory, i, !blank(disk.model)))
    && RivalByRotation(inventory, i, !blank(disk.model))
  }

  /** A selector that accepts entry `i` names it alone unless it accepts another entry, and never names another one alone. */
  lemma NamesItIff(selector: Selector, inventory: seq<Disk>, i: int)
    requires Faithful(selector) && 0 <= i < |inventory| && selector.matches(inventory[i])
    ensures NamesOnly(selector.expression, inventory, i) <==> !(exists j | 0 <= j < |inventory| :: j != i && selector.matches(inventory[j]))
    ensures forall j | NamesOnly(selector.expression, inventory, j) :: j == i
  {
    assert Accepts(selector.expression, inventory[i]);
  }

  lemma ByWWIDNamesIff(inventory: seq<Disk>, i: int)
    requires 0 <= i < |inventory| && !inventory[i].readOnly
    ensures var selector := BaseSelector(inventory[i]).And(WWIDIs(inventory[i].wwid), SameWWID(inventory[i]));
      NamesOnly(selector.expression, inventory, i) <==> !RivalByWWID(inventory, i)
  {
    BaseIsFaithful(inventory[i]);
    AndStaysFaithful(BaseSelector(inventory[i]), WWIDIs(inventory[i].wwid), SameWWID(inventory[i]));
    NamesItIff(BaseSelector(inventory[i]).And(WWIDIs(inventory[i].wwid), SameWWID(inventory[i])), inventory, i);
    assert forall j | 0 <= j < |inventory| && j != i ::
      BaseSelector(inventory[i]).And(WWIDIs(inventory[i].wwid), SameWWID(inventory[i])).matches(inventory[j])
      <==> Rivals(inventory, i, j) && inventory[j].wwid == inventory[i].wwid;
  }

  lemma BySerialNamesIff(inventory: seq<Disk>, i: int, blank: string -> bool)
    requires 0 <= i < |inventory| && !inventory[i].readOnly
    ensures var selector := WithModel(BaseSelector(inventory[i]).And(SerialIs(inventory[i].serial), SameSerial(inventory[i])),
                                inventory[i], blank);
      NamesOnly(selector.expression, inventory, i) <==> !RivalBySerial(inventory, i, !blank(inventory[i].model))
  {
    BaseIsFaithful(inventory[i]);
    AndStaysFaithful(BaseSelector(inventory[i]), SerialIs(inventory[i].serial), SameSerial(inventory[i]));
    var selector := BaseSelector(inventory[i]).And(SerialIs(inventory[i].serial), SameSerial(inventory[i]));
    WithModelStaysFaithful(selector, inventory[i], blank);
    NamesItIff(WithModel(selector, inventory[i], blank), inventory, i);
    assert forall j | 0 <= j < |inventory| && j != i :: WithModel(selector, inventory[i], blank).matches(inventory[j]) <==>
      && Rivals(inventory, i, j) && inventory[j].serial == inventory[i].serial
      && (!blank(inventory[i].model) ==> inventory[j].model == inventory[i].model);
  }

  lemma ByBusPathNamesIff(inventory: seq<Disk>, i: int, blank: string -> bool)
    requires 0 <= i < |inventory| && !inventory[i].readOnly
    ensures var selector := WithModel(BaseSelector(inventory[i]).And(BusPathIs(inventory[i].busPath), SameBusPath(inventory[i])),
                                inventory[i], blank);
      NamesOnly(selector.expression, inventory, i) <==> !RivalByBusPath(inventory, i, !blank(inventory[i].model))
  {
    BaseIsFaithful(inventory[i]);
    AndStaysFaithful(BaseSelector(inventory[i]), BusPathIs(inventory[i].busPath), SameBusPath(inventory[i]));
    var selector := BaseSelector(inventory[i]).And(BusPathIs(inventory[i].busPath), SameBusPath(inventory[i]));
    WithModelStaysFaithful(selector, inventory[i], blank);
    NamesItIff(WithModel(selector, inventory[i], blank), inventory, i);
    assert forall j | 0 <= j < |inventory| && j != i :: WithModel(selector, inventory[i], blank).matches(inventory[j]) <==>
      && Rivals(inventory, i, j) && inventory[j].busPath == inventory[i].busPath
      && (!blank(inventory[i].model) ==> inventory[j].model == inventory[i].model);
  }

  lemma LastNamesIff(inventory: seq<Disk>, i: int, blank: string -> bool)
    requires 0 <= i < |inventory| && !inventory[i].readOnly
    ensures var atom := if inventory[i].rotational then IsRotational else NotRotational;
      var selector := WithModel(BaseSelector(inventory[i]), inventory[i], blank).And(atom, SameRotation(inventory[i]));
      NamesOnly(selector.expression, inventory, i) <==> !RivalByRotation(inventory, i, !blank(inventory[i].model))
  {
    var atom := if inventory[i].rotational then IsRotational else NotRotational;
    BaseIsFaithful(inventory[i]);
    WithModelStaysFaithful(BaseSelector(inventory[i]), inventory[i], blank);
    var selector := WithModel(BaseSelector(inventory[i]), inventory[i], blank);
    AndStaysFaithful(selector, atom, SameRotation(inventory[i]));
    NamesItIff(selector.And(atom, SameRotation(inventory[i])), inventory, i);
    assert forall j | 0 <= j < |inventory| && j != i :: selector.And(atom, SameRotation(inventory[i])).matches(inventory[j]) <==>
      && Rivals(inventory, i, j) && inventory[j].rotational == inventory[i].rotational
      && (!blank(inventory[i].model) ==> inventory[j].model == inventory[i].model);
  }

  /** A writable disk gets a selector that names an entry of its inventory alone, and then itself, exactly when it has no rival in
      one of the things its selectors look at. */
  lemma NameableIff(inventory: seq<Disk>, i: int, blank: string -> bool)
    requires 0 <= i < |inventory| && !inventory[i].readOnly
    ensures Nameable(inventory, blank, i) <==> !Indistinguishable(inventory, i, blank)
  {
    var disk := inventory[i];
    var selectors := DiskSelectorsFor(disk, blank);
    SelectorsAreFaithful(disk, blank);
    SelectorAcceptsItsDiskIff(disk, blank);
    forall selector | selector in selectors
      ensures forall j | NamesOnly(selector.expression, inventory, j) :: j == i
    {
      NamesItIff(selector, inventory, i);
    }
    ByWWIDNamesIff(inventory, i);
    BySerialNamesIff(inventory, i, blank);
    ByBusPathNamesIff(inventory, i, blank);
    LastNamesIff(inventory, i, blank);
    SelectorsNameIff(disk, blank, inventory, i);
  }

  /** The list of selectors names an entry if one of its parts does. */
  lemma SelectorsNameIff(disk: Disk, blank: string -> bool, inventory: seq<Disk>, i: int)
    ensures var base := BaseSelector(disk);
      var atom := if disk.rotational then IsRotational else NotRotational;
      (exists selector | selector in DiskSelectorsFor(disk, blank) :: NamesOnly(selector.expression, inventory, i)) <==>
      || (!blank(disk.wwid) && NamesOnly(base.And(WWIDIs(disk.wwid), SameWWID(disk)).expression, inventory, i))
      || (!blank(disk.serial) && NamesOnly(WithModel(base.And(SerialIs(disk.serial), SameSerial(disk)), disk, blank).expression, inventory, i))
      || (!blank(disk.busPath) && NamesOnly(WithModel(base.And(BusPathIs(disk.busPath), SameBusPath(disk)), disk, blank).expression, inventory, i))
      || NamesOnly(WithModel(base, disk, blank).And(atom, SameRotation(disk)).expression, inventory, i)
  {
    var base := BaseSelector(disk);
    var byWWID := base.And(WWIDIs(disk.wwid), SameWWID(disk));
    var bySerial := WithModel(base.And(SerialIs(disk.serial), SameSerial(disk)), disk, blank);
    var byBusPath := WithModel(base.And(BusPathIs(disk.busPath), SameBusPath(disk)), disk, blank);
    var last := WithModel(base, disk, blank).And(if disk.rotational then IsRotational else NotRotational, SameRotation(disk));
    var selectors := DiskSelectorsFor(disk, blank);
    assert last in selectors;
    assert !blank(disk.wwid) ==> byWWID in selectors;
    assert !blank(disk.serial) ==> bySerial in selectors;
    assert !blank(disk.busPath) ==> byBusPath in selectors;
  }

  /** The first selector that matches one inventory entry; None exactly when no selector names an entry alone. For a
      disk of the inventory that entry is the disk itself if and only if the disk is writable. A writable disk gets one exactly when
      it has no rival in one of the things its selectors look at, and its WWID is the first of them. */
  method UniqueDiskSelector(disk: Disk, inventory: seq<Disk>, blank: string -> bool) returns (expression: Option<seq<Atom>>)
    ensures expression.Some? ==>
      exists s | 0 <= s < |DiskSelectorsFor(disk, blank)| :: FirstToName(DiskSelectorsFor(disk, blank), inventory, s, expression.value)
    ensures expression.Some? && disk in inventory ==>
      forall i | NamesOnly(expression.value, inventory, i) :: inventory[i] == disk <==> !disk.readOnly
    ensures expression.None? ==>
      forall selector, i | selector in DiskSelectorsFor(disk, blank) :: !NamesOnly(selector.expression, inventory, i)
    ensures forall i | 0 <= i < |inventory| && inventory[i] == disk && !disk.readOnly ::
      && (expression.None? <==> Indistinguishable(inventory, i, blank))
      && (!blank(disk.wwid) && !RivalByWWID(inventory, i) ==>
            expression == Some([NotReadOnly, SizeIs(disk.sizeBytes), WWIDIs(disk.wwid)]))
  {
    SelectorsAreFaithful(disk, blank);
    SelectorAcceptsItsDiskIff(disk, blank);
    var selectors := DiskSelectorsFor(disk, blank);
    for s := 0 to |selectors|
      invariant forall t, i | 0 <= t < s :: !NamesOnly(selectors[t].expression, inventory, i)
    {
      var selector := selectors[s];
      assert selector in selectors;
      var matches, first := CountMatches(selector, inventory);
      if matches == 1 {
        assert NamesOnly(selector.expression, inventory, first);
        assert FirstToName(selectors, inventory, s, selector.expression);
        ChosenIffDistinguishable(disk, inventory, blank, s);
        return Some(selector.expression);
      }
    }
    NoneChosenIffIndistinguishable(disk, inventory, blank);
    return None;
  }

  lemma ChosenIffDistinguishable(disk: Disk, inventory: seq<Disk>, blank: string -> bool, s: int)
    requires 0 <= s < |DiskSelectorsFor(disk, blank)|
    requires FirstToName(DiskSelectorsFor(disk, blank), inventory, s, DiskSelectorsFor(disk, blank)[s].expression)
    ensures forall i | 0 <= i < |inventory| && inventory[i] == disk && !disk.readOnly ::
      && !Indistinguishable(inventory, i, blank)
      && (!blank(disk.wwid) && !RivalByWWID(inventory, i) ==>
            DiskSelectorsFor(disk, blank)[s].expression == [NotReadOnly, SizeIs(disk.sizeBytes), WWIDIs(disk.wwid)])
  {
    var selectors := DiskSelectorsFor(disk, blank);
    forall i | 0 <= i < |inventory| && inventory[i] == disk && !disk.readOnly
      ensures !Indistinguishable(inventory, i, blank)
      ensures !blank(disk.wwid) && !RivalByWWID(inventory, i) ==>
        selectors[s].expression == [NotReadOnly, SizeIs(disk.sizeBytes), WWIDIs(disk.wwid)]
    {
      assert selectors[s] in selectors;
      NameableIff(inventory, i, blank);
      if !blank(disk.wwid) && !RivalByWWID(inventory, i) {
        ByWWIDNamesIff(inventory, i);
        assert NamesOnly(selectors[0].expression, inventory, i);
      }
    }
  }

  lemma NoneChosenIffIndistinguishable(disk: Disk, inventory: seq<Disk>, blank: string -> bool)
    requires forall selector, i | selector in DiskSelectorsFor(disk, blank) :: !NamesOnly(selector.expression, inventory, i)
    ensures forall i | 0 <= i < |inventory| && inventory[i] == disk && !disk.readOnly ::
      Indistinguishable(inventory, i, blank) && (blank(disk.wwid) || RivalByWWID(inventory, i))
  {
    forall i | 0 <= i < |inventory| && inventory[i] == disk && !disk.readOnly
      ensures Indistinguishable(inventory, i, blank)
    {
      NameableIff(inventory, i, blank);
    }
  }

  method CountMatches(selector: Selector, inventory: seq<Disk>) returns (matches: nat, ghost first: int)
    requires Faithful(selector)
    ensures matches == 1 ==> NamesOnly(selector.expression, inventory, first)
    ensures matches != 1 ==> forall i :: !NamesOnly(selector.expression, inventory, i)
  {
    matches, first := 0, 0;
    ghost var second := 0;
    for i := 0 to |inventory|
      invariant matches == 0 ==> forall j | 0 <= j < i :: !selector.matches(inventory[j])
      invariant matches >= 1 ==> 0 <= first < i && selector.matches(inventory[first])
      invariant matches == 1 ==> forall j | 0 <= j < i && j != first :: !selector.matches(inventory[j])
      invariant matches >= 2 ==> 0 <= second < i && second != first && selector.matches(inventory[second])
    {
      if selector.matches(inventory[i]) {
        if matches == 0 {
          first := i;
        } else {
          second := i;
        }
        matches := matches + 1;
      }
    }
  }

  /** A read-only disk can name another disk, for instance its writable twin: writability is part of every selector. */
  lemma ReadOnlyDiskCanNameItsTwin(disk: Disk, blank: string -> bool)
    requires disk.readOnly
    ensures exists selector | selector in DiskSelectorsFor(disk, blank) ::
      NamesOnly(selector.expression, [disk, disk.(readOnly := false)], 1)
  {
    SelectorsAreFaithful(disk, blank);
    var selectors := DiskSelectorsFor(disk, blank);
    var selector := selectors[|selectors| - 1];
    assert selector in selectors;
    var inventory := [disk, disk.(readOnly := false)];
    assert selector.matches(inventory[1]) && !selector.matches(inventory[0]);
    assert NamesOnly(selector.expression, inventory, 1);
  }

  datatype SelectionError = SelectionUnavailable | SelectionAmbiguous

  predicate Writable(disk: Disk, blank: string -> bool) {
    !blank(disk.devicePath) && disk.sizeBytes != 0 && !disk.readOnly
  }

  /** The one writable disk, provided some selector names it alone. */
  method SelectDisk(disks: seq<Disk>, blank: string -> bool) returns (selected: Result<Disk, SelectionError>)
    ensures selected.Success? <==>
      exists i | 0 <= i < |disks| :: OnlyWritable(disks, blank, i) && !Indistinguishable(disks, i, blank)
    ensures selected.Success? ==> forall i | 0 <= i < |disks| && OnlyWritable(disks, blank, i) :: selected.value == disks[i]
    ensures selected == Failure(SelectionUnavailable) <==>
      forall i | 0 <= i < |disks| :: blank(disks[i].devicePath) || disks[i].sizeBytes == 0 || disks[i].readOnly
  {
    var candidates: seq<Disk> := [];
    ghost var first, second := 0, 0;
    for i := 0 to |disks|
      invariant |candidates| == 0 ==> forall j | 0 <= j < i :: !Writable(disks[j], blank)
      invariant |candidates| >= 1 ==> 0 <= first < i && disks[first] == candidates[0] && Writable(disks[first], blank)
      invariant |candidates| == 1 ==> forall j | 0 <= j < i && j != first :: !Writable(disks[j], blank)
      invariant |candidates| >= 2 ==> 0 <= second < i && second != first && Writable(disks[second], blank)
    {
      if Writable(disks[i], blank) {
        if candidates == [] {
          first := i;
        } else {
          second := i;
        }
        candidates := candidates + [disks[i]];
      }
    }
    if candidates == [] {
      return Failure(SelectionUnavailable);
    }
    if |candidates| > 1 {
      return Failure(SelectionAmbiguous);
    }
    assert OnlyWritable(disks, blank, first);
    var expression := UniqueDiskSelector(candidates[0], disks, blank);
    if expression.None? {
      return Failure(SelectionAmbiguous);
    }
    return Success(candidates[0]);
  }

  ghost predicate OnlyWritable(disks: seq<Disk>, blank: string -> bool, i: int)
    requires 0 <= i < |disks|
  {
    && !blank(disks[i].devicePath) && disks[i].sizeBytes != 0 && !disks[i].readOnly
    && forall j | 0 <= j < |disks| && j != i :: blank(disks[j].devicePath) || disks[j].sizeBytes == 0 || disks[j].readOnly
  }

  ghost predicate Nameable(disks: seq<Disk>, blank: string -> bool, i: int)
    requires 0 <= i < |disks|
  {
    exists selector, j | selector in DiskSelectorsFor(disks[i], blank) :: NamesOnly(selector.expression, disks, j)
  }
}
