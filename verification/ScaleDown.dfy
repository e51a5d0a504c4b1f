/** Creating control-plane Machines by ordinal and deleting the surplus one at a time
    (controller/tartcontrolplane/machines.go, controller/tartcontrolplane/etcd.go). */
module ScaleDown {
  import opened FiniteSets
  import opened Names
  import opened Wrappers

  /** A control-plane Machine; `ordinal` is the ordinal label as it parses. */
  datatype Machine = Machine(name: string, ordinal: Option<int>, deleting: bool, deleteHook: bool)

  // ----- names -----

  function Digit(d: nat): char
    requires d < 10
  {
    "0123456789"[d]
  }

  function Decimal(n: nat): (s: string)
    ensures |s| > 0
  {
    if n < 10 then [Digit(n)] else Decimal(n / 10) + [Digit(n % 10)]
  }

  function ChildName(controlPlane: string, ordinal: nat): string {
    controlPlane + "-" + Decimal(ordinal)
  }

  lemma {:induction false} DecimalIsInjective(a: nat, b: nat)
    requires Decimal(a) == Decimal(b)
    ensures a == b
  {
    var s, t := Decimal(a), Decimal(b);
    assert s[|s| - 1] == Digit(a % 10) && t[|t| - 1] == Digit(b % 10);
    assert a % 10 == b % 10;
    if a >= 10 && b >= 10 {
      assert s[..|s| - 1] == Decimal(a / 10) && t[..|t| - 1] == Decimal(b / 10);
      DecimalIsInjective(a / 10, b / 10);
    }
  }

  /** Different ordinals of one control plane never share a Machine name. */
  lemma ChildNameIsInjective(controlPlane: string, a: nat, b: nat)
    requires ChildName(controlPlane, a) == ChildName(controlPlane, b)
    ensures a == b
  {
    var n := |controlPlane| + 1;
    assert ChildName(controlPlane, a)[n..] == Decimal(a);
    assert ChildName(controlPlane, b)[n..] == Decimal(b);
    DecimalIsInjective(a, b);
  }

  // ----- order -----

  /** Higher ordinals come first; without two usable, different ordinals the names decide, the greater first. */
  function CompareOrder(left: Machine, right: Machine): int {
    if left.ordinal.Some? && right.ordinal.Some? && left.ordinal.value != right.ordinal.value then
      right.ordinal.value - left.ordinal.value
    else CompareStrings(right.name, left.name)
  }

  /** The head of the list sorted by CompareOrder: nothing comes before it. Only the head of a sorted list is ever used. */
  method FirstInOrder(machines: seq<Machine>) returns (first: Machine)
    requires machines != []
    ensures first in machines
    ensures (forall m | m in machines :: m.ordinal.Some?) ==>
      forall m | m in machines :: m.ordinal.value <= first.ordinal.value
    ensures (forall m | m in machines :: m.ordinal.Some?) || (forall m | m in machines :: m.ordinal.None?) ==>
      forall m | m in machines && m.ordinal == first.ordinal :: !Before(first.name, m.name)
  {
    first := machines[0];
    BeforeIsTotal(first.name, first.name);
    for i := 1 to |machines|
      invariant first in machines
      invariant (forall m | m in machines :: m.ordinal.Some?) || (forall m | m in machines :: m.ordinal.None?) ==>
        forall k | 0 <= k < i && machines[k].ordinal == first.ordinal :: !Before(first.name, machines[k].name)
      invariant (forall m | m in machines :: m.ordinal.Some?) ==>
        forall k | 0 <= k < i :: machines[k].ordinal.value <= first.ordinal.value
    {
      if CompareOrder(machines[i], first) < 0 {
        forall k | 0 <= k < i && !Before(first.name, machines[k].name) && Before(first.name, machines[i].name)
          ensures !Before(machines[i].name, machines[k].name)
        {
          if Before(machines[i].name, machines[k].name) {
            BeforeIsTransitive(first.name, machines[i].name, machines[k].name);
          }
        }
        BeforeIsTotal(machines[i].name, machines[i].name);
        first := machines[i];
      }
    }
  }

  // ----- what the controller writes -----

  /** Every Machine carries the name and the label of one ordinal, and no name is used twice. */
  ghost predicate WellLabelled(controlPlane: string, machines: seq<Machine>) {
    && (forall k | 0 <= k < |machines| :: IsChild(controlPlane, machines[k]))
    && forall i, j | 0 <= i < j < |machines| :: machines[i].name != machines[j].name
  }

  ghost predicate IsChild(controlPlane: string, machine: Machine) {
    machine.ordinal.Some? && 0 <= machine.ordinal.value && machine.name == ChildName(controlPlane, machine.ordinal.value)
  }

  ghost function Ordinals(controlPlane: string, machines: seq<Machine>): (ordinals: seq<int>)
    requires WellLabelled(controlPlane, machines)
    ensures |ordinals| == |machines|
    ensures forall k | 0 <= k < |machines| :: ordinals[k] == machines[k].ordinal.value
  {
    seq(|machines|, k requires 0 <= k < |machines| => assert IsChild(controlPlane, machines[k]); machines[k].ordinal.value)
  }

  lemma OrdinalsAreDistinct(controlPlane: string, machines: seq<Machine>)
    requires WellLabelled(controlPlane, machines)
    ensures NoDuplicates(Ordinals(controlPlane, machines))
  {
    forall i, j | 0 <= i < j < |machines|
      ensures machines[i].ordinal.value != machines[j].ordinal.value
    {
      assert IsChild(controlPlane, machines[i]) && IsChild(controlPlane, machines[j]);
    }
  }

  /** With more Machines than desired, the greatest ordinal lies beyond the desired ones. */
  lemma GreatestOrdinalIsSurplus(controlPlane: string, machines: seq<Machine>, desired: nat, first: Machine)
    requires WellLabelled(controlPlane, machines) && |machines| > desired
    requires first in machines && forall m | m in machines :: m.ordinal.Some? && first.ordinal.Some? && m.ordinal.value <= first.ordinal.value
    ensures first.ordinal.value >= desired
  {
    if first.ordinal.value < desired {
      var ordinals := Ordinals(controlPlane, machines);
      OrdinalsAreDistinct(controlPlane, machines);
      DistinctSize(ordinals);
      UpToSize(desired);
      forall o | o in ToSet(ordinals)
        ensures 0 <= o < desired
      {
        var k :| 0 <= k < |machines| && ordinals[k] == o;
        assert IsChild(controlPlane, machines[k]) && machines[k] in machines;
      }
      SubsetSize(ToSet(ordinals), UpTo(desired));
    }
  }

  function Kept(machines: seq<Machine>): seq<Machine> {
    if machines == [] then []
    else
      var last := machines[|machines| - 1];
      Kept(machines[..|machines| - 1]) + if last.deleting then [] else [last]
  }

  lemma {:induction false} KeptWithoutDeletions(machines: seq<Machine>)
    requires forall m | m in machines :: !m.deleting
    ensures Kept(machines) == machines
  {
    if machines != [] {
      var rest := machines[..|machines| - 1];
      KeptWithoutDeletions(rest);
      assert machines == rest + [machines[|machines| - 1]];
    }
  }

  lemma {:induction false} KeptAfterOneDeletion(machines: seq<Machine>, t: nat, deleted: Machine)
    requires t < |machines| && deleted.deleting && forall m | m in machines :: !m.deleting
    ensures |Kept(machines[t := deleted])| == |machines| - 1
  {
    var marked := machines[t := deleted];
    var n := |machines| - 1;
    var rest := machines[..n];
    if t == n {
      assert marked[..n] == rest;
      KeptWithoutDeletions(rest);
    } else {
      assert marked[..n] == rest[t := deleted];
      KeptAfterOneDeletion(rest, t, deleted);
    }
  }

  lemma {:induction false} KeptMembers(machines: seq<Machine>, m: Machine)
    ensures m in Kept(machines) <==> m in machines && !m.deleting
  {
    if machines != [] {
      var rest, last := machines[..|machines| - 1], machines[|machines| - 1];
      assert machines == rest + [last];
      KeptMembers(rest, m);
    }
  }

  // ----- the reconcile -----

  /** What the scale-down did, whether or not it learnt of it: nothing, a hook on the deleting Machine, a hand-over to etcd member removal, or one Delete. */
  datatype Effect = Nothing | EnsuredHook(name: string) | EtcdRemoval(name: string) | Deleted(name: string)

  class MachineStore {
    const controlPlane: string
    /** Whether the API call with this number is answered. A write without an answer may still have been made. */
    const answers: nat -> bool
    var calls: nat
    var machines: seq<Machine>

    ghost predicate Valid()
      reads this
    {
      WellLabelled(controlPlane, machines)
    }

    /** Every call from number `from` on was answered. */
    ghost predicate Answered(from: nat)
      reads this
    {
      forall k | from <= k < calls :: answers(k)
    }

    constructor (controlPlane: string, answers: nat -> bool)
      ensures Valid() && machines == [] && this.controlPlane == controlPlane && this.answers == answers && calls == 0
    {
      this.controlPlane := controlPlane;
      this.answers := answers;
      machines, calls := [], 0;
    }

    method Call() returns (ok: bool)
      modifies this`calls
      ensures calls == old(calls) + 1 && ok == answers(old(calls))
    {
      ok := answers(calls);
      calls := calls + 1;
    }

    /** Users and other controllers may start deleting Machines, and deleted Machines may disappear, any number of them. */
    method Interfere()
      requires Valid()
      modifies this`machines
      ensures Valid() && NoneAdded(old(machines), machines)
    {
      var steps: nat := *;
      while steps > 0
        invariant Valid() && NoneAdded(old(machines), machines)
      {
        var i: int := *;
        if 0 <= i < |machines| {
          var gone: bool := *;
          if gone && machines[i].deleting {
            machines := machines[..i] + machines[i + 1..];
          } else {
            machines := machines[i := machines[i].(deleting := true)];
          }
        }
        steps := steps - 1;
      }
    }

    /** Creates the Machine of an ordinal and reads it back. A Machine that already exists is as good as a created one, and the
        Machine may start deleting or disappear in between. It fails only without an answer, or when the Machine has gone. */
    method CreateMachine(ordinal: nat) returns (ok: bool)
      requires Valid()
      modifies this`machines, this`calls
      ensures Valid() && old(calls) <= calls
      ensures NoneAdded(old(machines) + [Machine(ChildName(controlPlane, ordinal), Some(ordinal), false, false)], machines)
      ensures ok <==> Answered(old(calls)) && Exists(machines, ChildName(controlPlane, ordinal))
      ensures ok ==> calls == old(calls) + 2
    {
      ok := Create(ordinal);
      ghost var before := machines;
      Interfere();
      NoneAddedSince(old(machines) + [Child(controlPlane, ordinal)], before, machines);
      if ok {
        ok := Call();
        ok := ok && exists k :: 0 <= k < |machines| && machines[k].name == ChildName(controlPlane, ordinal);
      }
    }

    method Create(ordinal: nat) returns (ok: bool)
      requires Valid()
      modifies this`machines, this`calls
      ensures Valid() && calls == old(calls) + 1 && ok == answers(old(calls))
      ensures machines == old(machines) || machines == old(machines) + [Child(controlPlane, ordinal)]
      ensures ok ==> Exists(machines, ChildName(controlPlane, ordinal))
    {
      ok := Call();
      var taken: bool := *;
      if (ok || taken) && !(exists k :: 0 <= k < |machines| && machines[k].name == ChildName(controlPlane, ordinal)) {
        machines := machines + [Child(controlPlane, ordinal)];
        assert machines[|machines| - 1].name == ChildName(controlPlane, ordinal);
        assert forall k | 0 <= k < |old(machines)| :: IsChild(controlPlane, old(machines)[k]) ==> IsChild(controlPlane, machines[k]);
      }
    }

    /** Lists the Machines and creates those of the first `desired` ordinals that were not listed, while Machines may start
        deleting and disappear. `ensured` are the listed and the created Machines. */
    method CreateMissing(desired: nat) returns (ok: bool, ghost ensured: seq<Machine>)
      requires Valid()
      modifies this`machines, this`calls
      ensures Valid() && old(calls) <= calls
      ensures ok ==> Answered(old(calls)) && AllExist(controlPlane, ensured, desired) && NoneAdded(ensured, machines)
      ensures !ok ==> !Answered(old(calls)) || !AllExist(controlPlane, machines, desired)
    {
      ensured := machines;
      var listed := Call();
      if !listed {
        return false, ensured;
      }
      var byName := set m | m in machines :: m.name;
      for ordinal := 0 to desired
        invariant Valid() && old(calls) <= calls && Answered(old(calls))
        invariant forall name :: name in byName <==> Exists(ensured, name)
        invariant AllExist(controlPlane, ensured, ordinal) && NoneAdded(ensured, machines)
      {
        ghost var before := machines;
        Interfere();
        NoneAddedSince(ensured, before, machines);
        var name := ChildName(controlPlane, ordinal);
        if name !in byName {
          ghost var present := machines;
          var created := CreateMachine(ordinal);
          if !created {
            return false, ensured;
          }
          OneMoreExists(controlPlane, ensured, ordinal);
          OneMoreAdded(ensured, present, Child(controlPlane, ordinal));
          NoneAddedSince(ensured + [Child(controlPlane, ordinal)], present + [Child(controlPlane, ordinal)], machines);
          NamesAfter(ensured, Child(controlPlane, ordinal));
          ensured := ensured + [Child(controlPlane, ordinal)];
          byName := byName + {name};
        }
      }
      return true, ensured;
    }

    /** Sees to it that the ordinals 0..desired-1 exist, then lists anew and hands a surplus over to the scale-down. `removal` is
        what the removal of an etcd member answers if it comes to that, None being an error. The scale-down is pending whenever
        there was a surplus to work on and nothing failed, unless the removal says that it is not. */
    method EnsureMachines(desired: nat, removal: Option<bool>)
      returns (pending: bool, failed: bool, ghost ensured: seq<Machine>, ghost listed: seq<Machine>, effect: Effect)
      requires Valid()
      modifies this`machines, this`calls
      ensures Valid() && old(calls) <= calls
      ensures pending <==> !failed && |listed| > desired && (effect.EtcdRemoval? ==> removal == Some(true))
      ensures failed ==>
        || !Answered(old(calls)) || (effect.EtcdRemoval? && removal.None?)
        || (effect.Nothing? && !AllExist(controlPlane, machines, desired))
      ensures !failed ==> Answered(old(calls))
      ensures !failed || !effect.Nothing? ==> AllExist(controlPlane, ensured, desired) && NoneAdded(ensured, listed)
      ensures !failed ==> (|listed| > desired <==> !effect.Nothing?)
      ensures DeletesOneSurplusMachine(listed, desired, effect)
      ensures effect.Deleted? ==> |Kept(machines)| >= desired
      ensures !effect.Nothing? ==> IsScaleDownStep(listed, machines, effect)
    {
      effect := Nothing;
      var created;
      created, ensured := CreateMissing(desired);
      if !created {
        return false, true, ensured, machines, Nothing;
      }
      ghost var before := machines;
      Interfere();
      NoneAddedSince(ensured, before, machines);
      listed := machines;
      var answered := Call();
      if !answered {
        return false, true, ensured, machines, Nothing;
      }
      if |machines| > desired {
        pending, failed, effect := ReconcileScaleDown(desired, removal);
      } else {
        pending, failed := false, false;
      }
    }

    method EnsureEtcdDeleteHook(i: nat) returns (ok: bool, applied: bool)
      requires Valid() && i < |machines|
      modifies this`machines, this`calls
      ensures Valid() && old(calls) <= calls && (ok <==> Answered(old(calls)))
      ensures ok ==> applied
      ensures machines == if applied then old(machines)[i := old(machines)[i].(deleteHook := true)] else old(machines)
    {
      if machines[i].deleteHook {
        assert machines[i := machines[i].(deleteHook := true)] == machines;
        return true, true;
      }
      ok := Call();
      var taken: bool := *;
      applied := ok || taken;
      if applied {
        machines := machines[i := machines[i].(deleteHook := true)];
      }
    }

    method ReconcileScaleDown(desired: nat, removal: Option<bool>) returns (pending: bool, failed: bool, effect: Effect)
      requires Valid() && |machines| > desired
      modifies this`machines, this`calls
      ensures Valid() && old(calls) <= calls
      ensures pending <==> !failed && (effect.EtcdRemoval? ==> removal == Some(true))
      ensures failed <==> !Answered(old(calls)) || (effect.EtcdRemoval? && removal.None?)
      ensures !failed ==> !effect.Nothing?
      ensures IsScaleDownStep(old(machines), machines, effect)
      ensures DeletesOneSurplusMachine(old(machines), desired, effect)
      ensures effect.Deleted? ==> |Kept(machines)| >= desired
    {
      var candidates, deleting: seq<Machine> := [], [];
      for i := 0 to |machines|
        invariant forall m :: m in candidates <==> m in machines[..i] && !m.deleting
        invariant forall m :: m in deleting <==> m in machines[..i] && m.deleting
      {
        assert machines[..i + 1] == machines[..i] + [machines[i]];
        if machines[i].deleting {
          deleting := deleting + [machines[i]];
        } else {
          candidates := candidates + [machines[i]];
        }
      }
      assert machines[..|machines|] == machines;
      if deleting != [] {
        pending, failed, effect := ContinueDeletion(deleting, removal);
        return;
      }
      assert machines[0] in machines;
      if candidates == [] {
        return false, false, Nothing;
      }
      pending, failed, effect := DeleteSurplus(candidates, desired);
    }

    /** While a Machine is deleting, the scale-down only keeps its hook in place and removes its etcd member. */
    method ContinueDeletion(deleting: seq<Machine>, removal: Option<bool>) returns (pending: bool, failed: bool, effect: Effect)
      requires Valid() && deleting != []
      requires forall m :: m in deleting <==> m in machines && m.deleting
      modifies this`machines, this`calls
      ensures Valid() && !effect.Deleted? && old(calls) <= calls
      ensures pending <==> !failed && (effect.EtcdRemoval? ==> removal == Some(true))
      ensures failed <==> !Answered(old(calls)) || (effect.EtcdRemoval? && removal.None?)
      ensures !failed ==> !effect.Nothing?
      ensures IsScaleDownStep(old(machines), machines, effect)
    {
      AllChildren(controlPlane, machines);
      var target := FirstInOrder(deleting);
      var t :| 0 <= t < |machines| && machines[t] == target;
      assert IsHead(machines, t);
      if target.deleteHook {
        return removal == Some(true), removal.None?, EtcdRemoval(target.name);
      }
      var ok, applied := EnsureEtcdDeleteHook(t);
      return ok, !ok, if applied then EnsuredHook(target.name) else Nothing;
    }

    /** The Machine with the greatest ordinal, which is a surplus one. */
    method ChooseSurplus(candidates: seq<Machine>, desired: nat) returns (t: nat)
      requires Valid() && |machines| > desired && candidates != []
      requires forall m :: m in candidates <==> m in machines
      requires forall m | m in machines :: !m.deleting
      ensures t < |machines| && IsHead(machines, t) && machines[t].ordinal.value >= desired
    {
      AllChildren(controlPlane, machines);
      var target := FirstInOrder(candidates);
      GreatestOrdinalIsSurplus(controlPlane, machines, desired, target);
      t :| 0 <= t < |machines| && machines[t] == target;
    }

    /** Hooks and deletes the Machine with the greatest ordinal. */
    method DeleteSurplus(candidates: seq<Machine>, desired: nat) returns (pending: bool, failed: bool, effect: Effect)
      requires Valid() && |machines| > desired && candidates != []
      requires forall m :: m in candidates <==> m in machines
      requires forall m | m in machines :: !m.deleting
      modifies this`machines, this`calls
      ensures Valid() && old(calls) <= calls && !effect.EtcdRemoval?
      ensures (pending <==> !failed) && (failed <==> !Answered(old(calls)))
      ensures !failed ==> effect.Deleted?
      ensures IsScaleDownStep(old(machines), machines, effect)
      ensures DeletesOneSurplusMachine(old(machines), desired, effect)
      ensures effect.Deleted? ==> |Kept(machines)| >= desired
    {
      ghost var before := machines;
      var t := ChooseSurplus(candidates, desired);
      failed, effect := DeleteAt(t);
      pending := !failed;
      WorksOnTheHead(before, machines, t, desired, effect);
    }

    /** Hooks and deletes one Machine. */
    method DeleteAt(t: nat) returns (failed: bool, effect: Effect)
      requires Valid() && t < |machines|
      modifies this`machines, this`calls
      ensures Valid() && old(calls) <= calls && (failed <==> !Answered(old(calls))) && (!failed ==> effect.Deleted?)
      ensures IsEffectAt(old(machines), machines, t, effect)
    {
      var name := machines[t].name;
      var hooked, applied := EnsureEtcdDeleteHook(t);
      if !hooked {
        return true, if applied then EnsuredHook(name) else Nothing;
      }
      var answered, deleted := Delete(t);
      if !deleted {
        return true, EnsuredHook(name);
      }
      ghost var before := old(machines);
      SecondUpdateWins(before, t, before[t].(deleteHook := true), before[t].(deleteHook := true, deleting := true));
      return !answered, Deleted(name);
    }

    lemma SecondUpdateWins(s: seq<Machine>, t: nat, first: Machine, second: Machine)
      requires t < |s|
      ensures s[t := first][t := second] == s[t := second]
    {
    }

    lemma WorksOnTheHead(before: seq<Machine>, after: seq<Machine>, t: nat, desired: nat, effect: Effect)
      requires |before| > desired && IsHead(before, t) && before[t].ordinal.value >= desired && forall m | m in before :: !m.deleting
      requires IsEffectAt(before, after, t, effect)
      ensures IsScaleDownStep(before, after, effect) && !effect.EtcdRemoval?
      ensures DeletesOneSurplusMachine(before, desired, effect) && (effect.Deleted? ==> |Kept(after)| >= desired)
    {
      KeptAfterOneDeletion(before, t, before[t].(deleteHook := true, deleting := true));
    }

    /** The Delete call: the Machine stays listed until its finalizers are gone. */
    method Delete(t: nat) returns (ok: bool, deleted: bool)
      requires Valid() && t < |machines|
      modifies this`machines, this`calls
      ensures Valid() && calls == old(calls) + 1 && ok == answers(old(calls)) && (ok ==> deleted)
      ensures machines == if deleted then old(machines)[t := old(machines)[t].(deleting := true)] else old(machines)
    {
      ok := Call();
      var taken: bool := *;
      deleted := ok || taken;
      if !deleted {
        return;
      }
      machines := machines[t := machines[t].(deleting := true)];
      assert forall k | 0 <= k < |machines| :: IsChild(controlPlane, old(machines)[k]) ==> IsChild(controlPlane, machines[k]);
    }
  }

  /** The hook on the Machine at `t` and its Delete, as far as they got. */
  ghost predicate IsEffectAt(before: seq<Machine>, after: seq<Machine>, t: nat, effect: Effect) {
    && t < |before|
    && match effect
       case Nothing => after == before
       case EnsuredHook(name) => name == before[t].name && after == before[t := before[t].(deleteHook := true)]
       case EtcdRemoval(_) => false
       case Deleted(name) =>
         name == before[t].name && after == before[t := before[t].(deleteHook := true, deleting := true)]
  }

  ghost predicate Exists(machines: seq<Machine>, name: string) {
    exists k :: 0 <= k < |machines| && machines[k].name == name
  }

  ghost predicate AllExist(controlPlane: string, machines: seq<Machine>, count: nat) {
    forall o: nat | o < count :: Exists(machines, ChildName(controlPlane, o))
  }

  function Child(controlPlane: string, ordinal: nat): Machine {
    Machine(ChildName(controlPlane, ordinal), Some(ordinal), false, false)
  }

  /** Every Machine of `after` that is not being deleted is one of `before`. */
  ghost predicate NoneAdded(before: seq<Machine>, after: seq<Machine>) {
    forall m | m in after && !m.deleting :: m in before
  }

  lemma NoneAddedSince(first: seq<Machine>, second: seq<Machine>, third: seq<Machine>)
    requires NoneAdded(first, second) && NoneAdded(second, third)
    ensures NoneAdded(first, third)
  {
  }

  lemma OneMoreAdded(before: seq<Machine>, after: seq<Machine>, m: Machine)
    requires NoneAdded(before, after)
    ensures NoneAdded(before + [m], after + [m])
  {
  }

  lemma NamesAfter(machines: seq<Machine>, m: Machine)
    ensures forall name :: Exists(machines + [m], name) <==> Exists(machines, name) || name == m.name
  {
    forall name
      ensures Exists(machines + [m], name) <==> Exists(machines, name) || name == m.name
    {
      var longer := machines + [m];
      assert longer[|machines|] == m;
      if Exists(machines, name) {
        var k :| 0 <= k < |machines| && machines[k].name == name;
        assert longer[k] == machines[k];
      }
      if Exists(longer, name) && name != m.name {
        var k :| 0 <= k < |longer| && longer[k].name == name;
        assert machines[k] == longer[k];
      }
    }
  }

  lemma OneMoreExists(controlPlane: string, before: seq<Machine>, ordinal: nat)
    requires AllExist(controlPlane, before, ordinal)
    ensures AllExist(controlPlane, before + [Child(controlPlane, ordinal)], ordinal + 1)
  {
    NamesAfter(before, Child(controlPlane, ordinal));
  }

  /** The Machine the scale-down works on: the one with the greatest ordinal among the deleting Machines if there are any,
      otherwise among all. */
  ghost predicate IsHead(machines: seq<Machine>, t: int) {
    && 0 <= t < |machines|
    && ((exists m :: m in machines && m.deleting) ==> machines[t].deleting)
    && machines[t].ordinal.Some?
    && forall m | m in machines && m.deleting == machines[t].deleting :: m.ordinal.Some? && m.ordinal.value <= machines[t].ordinal.value
  }

  /** The only ways a scale-down changes the Machines. */
  ghost predicate IsScaleDownStep(before: seq<Machine>, after: seq<Machine>, effect: Effect) {
    match effect
    case Nothing => after == before
    case EnsuredHook(name) =>
      exists t :: IsHead(before, t) && before[t].name == name && after == before[t := before[t].(deleteHook := true)]
    case EtcdRemoval(name) =>
      after == before && exists t :: IsHead(before, t) && before[t].name == name && before[t].deleting && before[t].deleteHook
    case Deleted(name) =>
      && (forall m | m in before :: !m.deleting)
      && exists t :: IsHead(before, t) && before[t].name == name && after == before[t := before[t].(deleteHook := true, deleting := true)]
  }

  /** A Delete is issued only while no listed Machine is deleting, for a Machine whose ordinal is beyond the desired ones. */
  ghost predicate DeletesOneSurplusMachine(listed: seq<Machine>, desired: nat, effect: Effect) {
    effect.Deleted? ==>
      && |listed| > desired
      && (forall m | m in listed :: !m.deleting)
      && exists k :: 0 <= k < |listed| && listed[k].name == effect.name && listed[k].ordinal.Some? && listed[k].ordinal.value >= desired
  }

  lemma AllChildren(controlPlane: string, machines: seq<Machine>)
    requires WellLabelled(controlPlane, machines)
    ensures forall m | m in machines :: m.ordinal.Some?
  {
    forall m | m in machines
      ensures m.ordinal.Some?
    {
      var k :| 0 <= k < |machines| && machines[k] == m;
      assert IsChild(controlPlane, machines[k]);
    }
  }

  /** If nobody interferes, the Machines of the desired ordinals all survive a Delete. */
  lemma DesiredOrdinalsSurvive(controlPlane: string, machines: seq<Machine>, desired: nat, t: nat, ordinal: nat)
    requires WellLabelled(controlPlane, machines) && t < |machines| && ordinal < desired
    requires forall m | m in machines :: !m.deleting
    requires machines[t].ordinal.Some? && machines[t].ordinal.value >= desired
    requires Exists(machines, ChildName(controlPlane, ordinal))
    ensures Exists(Kept(machines[t := machines[t].(deleting := true)]), ChildName(controlPlane, ordinal))
  {
    var after := machines[t := machines[t].(deleting := true)];
    var k :| 0 <= k < |machines| && machines[k].name == ChildName(controlPlane, ordinal);
    assert IsChild(controlPlane, machines[k]) && IsChild(controlPlane, machines[t]);
    ChildNameIsInjective(controlPlane, machines[k].ordinal.value, ordinal);
    assert k != t && after[k] == machines[k];
    KeptMembers(after, machines[k]);
    var j :| 0 <= j < |Kept(after)| && Kept(after)[j] == machines[k];
  }
}
