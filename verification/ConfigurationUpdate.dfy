/** Applying a machine configuration to a running node (controller/runtimeextension/updateapply.go), and what any
    number of such updates, with reboots at any moment, can do to the node. */
module ConfigurationUpdate {
  import opened Certificates
  import opened ChangeClassification
  import opened StorageChange
  import opened Wrappers

  /** The configuration a node runs, and the one its next boot will load. */
  datatype NodeState = NodeState(active: Bytes, disk: Bytes)

  /** `seen` is the index of the state in which the writer had observed the active configuration. */
  datatype Event = Boot | ApplyNow(seen: nat, desired: Bytes) | Stage(seen: nat, desired: Bytes)

  ghost predicate StepAt(lib: Library, run: seq<NodeState>, events: seq<Event>, k: int)
    requires 0 <= k < |events| && |run| == |events| + 1
  {
    match events[k]
    case Boot => run[k + 1] == NodeState(run[k].disk, run[k].disk)
    case ApplyNow(seen, desired) =>
      seen <= k && Permitted(lib, run[seen].active, desired) && run[k + 1] == NodeState(desired, desired)
    case Stage(seen, desired) =>
      seen <= k && Permitted(lib, run[seen].active, desired) && run[k + 1] == run[k].(disk := desired)
  }

  ghost predicate IsRun(lib: Library, run: seq<NodeState>, events: seq<Event>) {
    && |run| == |events| + 1
    && run[0].active == run[0].disk
    && forall k | 0 <= k < |events| :: StepAt(lib, run, events, k)
  }

  /** Nothing is lost on the way from one configuration to the other: identity, installation and storage. */
  ghost predicate Preserved(lib: Library, before: Bytes, after: Bytes) {
    before == after
    || (&& lib.load(before).Some? && lib.load(after).Some?
        && var a, d := lib.load(before).value, lib.load(after).value;
        && InvariantsAgree(lib, a, d) && a.install == d.install && StorageKept(a.documents, d.documents))
  }

  lemma PermittedIsPreserved(lib: Library, before: Bytes, after: Bytes)
    requires Permitted(lib, before, after)
    ensures Preserved(lib, before, after)
  {
    AcceptedIsKept(lib.load(before).value.documents, lib.load(after).value.documents);
  }

  lemma PreservedIsTransitive(lib: Library, a: Bytes, b: Bytes, c: Bytes)
    requires Preserved(lib, a, b) && Preserved(lib, b, c)
    ensures Preserved(lib, a, c)
  {
    if a != b && b != c {
      var x, y, z := lib.load(a).value, lib.load(b).value, lib.load(c).value;
      InvariantsAgreeIsAnEquivalence(lib, x, y, z);
      KeptIsTransitive(x.documents, y.documents, z.documents);
    }
  }

  /** Nothing the node had at the start is ever lost, whenever it reboots and however old the observations are. */
  lemma {:induction false} StartIsPreserved(lib: Library, run: seq<NodeState>, events: seq<Event>, n: nat)
    requires IsRun(lib, run, events) && n < |run|
    ensures forall k | 0 <= k <= n ::
      Preserved(lib, run[0].active, run[k].active) && Preserved(lib, run[0].active, run[k].disk)
  {
    if n > 0 {
      StartIsPreserved(lib, run, events, n - 1);
      assert StepAt(lib, run, events, n - 1);
      match events[n - 1]
      case Boot =>
      case ApplyNow(seen, desired) =>
        PermittedIsPreserved(lib, run[seen].active, desired);
        PreservedIsTransitive(lib, run[0].active, run[seen].active, desired);
      case Stage(seen, desired) =>
        PermittedIsPreserved(lib, run[seen].active, desired);
        PreservedIsTransitive(lib, run[0].active, run[seen].active, desired);
    }
  }

  /** Step `k` is no write, or writes what preserves the configuration active at that moment. */
  ghost predicate KeepsActiveAt(lib: Library, run: seq<NodeState>, events: seq<Event>, k: int)
    requires 0 <= k < |events| && |run| == |events| + 1
  {
    !events[k].Boot? ==> Preserved(lib, run[k].active, events[k].desired)
  }

  lemma {:induction false} KeptWritesPreserve(lib: Library, run: seq<NodeState>, events: seq<Event>, i: nat, n: nat)
    requires IsRun(lib, run, events) && i <= n < |run|
    requires forall k | 0 <= k < |events| :: KeepsActiveAt(lib, run, events, k)
    ensures PreservedFrom(lib, run, i, n)
    decreases n
  {
    if n > 0 {
      assert StepAt(lib, run, events, n - 1) && KeepsActiveAt(lib, run, events, n - 1);
      KeptWritesPreserve(lib, run, events, n - 1, n - 1);
      if i < n {
        KeptWritesPreserve(lib, run, events, i, n - 1);
        if !events[n - 1].Boot? {
          PreservedIsTransitive(lib, run[i].active, run[n - 1].active, events[n - 1].desired);
        }
      }
    }
  }

  /** Nothing the node has in state `i` is lost by state `n`, nor by what it will then boot into. */
  ghost predicate PreservedFrom(lib: Library, run: seq<NodeState>, i: int, n: int)
    requires 0 <= i <= n < |run|
  {
    Preserved(lib, run[i].active, run[n].active) && Preserved(lib, run[i].active, run[n].disk)
  }

  /** Every moment of a run is preserved by all later ones exactly when every write preserves what is active when it is made. */
  lemma EveryMomentIsPreservedIff(lib: Library, run: seq<NodeState>, events: seq<Event>)
    requires IsRun(lib, run, events)
    ensures (forall i, n | 0 <= i <= n < |run| :: PreservedFrom(lib, run, i, n))
      <==> (forall k | 0 <= k < |events| :: KeepsActiveAt(lib, run, events, k))
  {
    if forall k | 0 <= k < |events| :: KeepsActiveAt(lib, run, events, k) {
      forall i, n | 0 <= i <= n < |run|
        ensures PreservedFrom(lib, run, i, n)
      {
        KeptWritesPreserve(lib, run, events, i, n);
      }
    }
    if forall i, n | 0 <= i <= n < |run| :: PreservedFrom(lib, run, i, n) {
      forall k | 0 <= k < |events|
        ensures KeepsActiveAt(lib, run, events, k)
      {
        assert StepAt(lib, run, events, k) && PreservedFrom(lib, run, k, k + 1);
      }
    }
  }

  lemma {:induction false} BootsLoadTheDisk(lib: Library, run: seq<NodeState>, events: seq<Event>, seen: nat, k: nat)
    requires IsRun(lib, run, events) && seen <= k < |run| && forall j | seen <= j < k :: events[j].Boot?
    ensures run[k].disk == run[seen].disk && run[k].active == if k == seen then run[seen].active else run[seen].disk
  {
    if seen < k {
      BootsLoadTheDisk(lib, run, events, seen, k - 1);
      assert StepAt(lib, run, events, k - 1);
    }
  }

  /** Judging the next write by a read is safe, whatever is written and however the node reboots in between, exactly when
      what was staged at the read is preserved in what was active; with nothing staged it always is. `twin` is some
      configuration with the same storage, for instance the one just read with another label. */
  lemma ReadIsSafeIff(lib: Library, run: seq<NodeState>, events: seq<Event>, seen: nat, k: nat, twin: Bytes)
    requires IsRun(lib, run, events) && seen < k < |run| && forall j | seen <= j < k :: events[j].Boot?
    requires Permitted(lib, run[seen].active, twin)
    requires lib.load(twin).value.documents == lib.load(run[seen].active).value.documents
    ensures (forall desired | Permitted(lib, run[seen].active, desired) :: Preserved(lib, run[k].active, desired))
      <==> Preserved(lib, run[seen].disk, run[seen].active)
  {
    BootsLoadTheDisk(lib, run, events, seen, k);
    var active, disk := run[seen].active, run[seen].disk;
    if Preserved(lib, disk, active) {
      forall desired | Permitted(lib, active, desired)
        ensures Preserved(lib, disk, desired)
      {
        PermittedIsPreserved(lib, active, desired);
        PreservedIsTransitive(lib, disk, active, desired);
      }
    }
    if Preserved(lib, disk, twin) {
      TwinIsPreserved(lib, active, twin);
      PreservedIsTransitive(lib, disk, twin, active);
    }
  }

  lemma TwinIsPreserved(lib: Library, active: Bytes, twin: Bytes)
    requires Permitted(lib, active, twin) && lib.load(twin).value.documents == lib.load(active).value.documents
    ensures Preserved(lib, twin, active)
  {
    InvariantsAgreeIsAnEquivalence(lib, lib.load(active).value, lib.load(twin).value, lib.load(active).value);
    AcceptedIsKept(lib.load(twin).value.documents, lib.load(active).value.documents);
  }

  /** Whatever the race, the key material, roles and cluster identity of any two moments agree. */
  lemma IdentityNeverChanges(lib: Library, run: seq<NodeState>, events: seq<Event>, i: nat, j: nat)
    requires IsRun(lib, run, events) && i < |run| && j < |run| && run[i].active != run[j].active
    ensures lib.load(run[i].active).Some? && lib.load(run[j].active).Some?
    ensures InvariantsAgree(lib, lib.load(run[i].active).value, lib.load(run[j].active).value)
    ensures lib.load(run[i].active).value.install == lib.load(run[j].active).value.install
  {
    StartIsPreserved(lib, run, events, |run| - 1);
    var start, a, d := lib.load(run[0].active), lib.load(run[i].active), lib.load(run[j].active);
    if run[i].active != run[0].active {
      InvariantsAgreeIsAnEquivalence(lib, start.value, a.value, a.value);
      if run[j].active != run[0].active {
        InvariantsAgreeIsAnEquivalence(lib, a.value, start.value, d.value);
      }
    }
  }

  // ----- the race -----

  function Plain(documents: seq<Document>): Configuration {
    Configuration(Some(MachineSection("worker", None, "t")), Some(ClusterSection("i", "s", None)), None, None, None,
                  Some(KubernetesCluster("c", None)), [], [], None, documents)
  }

  function ThreeConfigurations(): Library {
    Library(b => if b == [0] then Some(Plain([])) else if b == [1] then Some(Plain([VolumeGroup("data", "disk.size > 0u")]))
                 else if b == [2] then Some(Plain([VolumeGroup("cache", "disk.size > 0u")])) else None,
            b => Some(b), b => Some(b), b => Some(b), s => s)
  }

  /** A staged configuration that takes effect between the observation and the write is not judged: the run below stages a
      volume group, boots into it, and then loses it to an update judged against the configuration before. */
  lemma LateBootLosesAVolumeGroup() returns (lib: Library, run: seq<NodeState>, events: seq<Event>)
    ensures IsRun(lib, run, events) && |run| == 5 && |events| == 4
    ensures !KeepsActiveAt(lib, run, events, 2)
    ensures !Preserved(lib, run[2].active, run[4].active)
  {
    lib := ThreeConfigurations();
    var none, data, cache := Plain([]), Plain([VolumeGroup("data", "disk.size > 0u")]), Plain([VolumeGroup("cache", "disk.size > 0u")]);
    assert lib.load([0]) == Some(none) && lib.load([1]) == Some(data) && lib.load([2]) == Some(cache);
    run := [NodeState([0], [0]), NodeState([0], [1]), NodeState([1], [1]), NodeState([1], [2]), NodeState([2], [2])];
    events := [Stage(0, [1]), Boot, Stage(0, [2]), Boot];
    assert Permitted(lib, [0], [1]) && Permitted(lib, [0], [2]);
    assert StepAt(lib, run, events, 0) && StepAt(lib, run, events, 1) && StepAt(lib, run, events, 2) && StepAt(lib, run, events, 3);
    OnlyDocument(data.documents[0]);
    OnlyDocument(cache.documents[0]);
    assert Key(data.documents[0]) in Index(data.documents);
  }

  lemma OnlyDocument(document: Document)
    requires document.VolumeGroup?
    ensures Index([document]) == map[Key(document) := document]
  {
    assert [document][..0] == [];
  }

  // ----- the node and the procedure -----

  datatype Outcome = Done | Retry | Stopped

  class TalosNode {
    const lib: Library
    /** Whether the remote call with this number is answered. A write without an answer may still have been made. */
    const answers: nat -> bool
    var active: Bytes
    var disk: Bytes
    var boots: nat
    /** The number of remote calls made so far, and how many of them asked for a reboot. */
    var calls: nat
    var rebootRequests: nat
    ghost var run: seq<NodeState>
    ghost var events: seq<Event>

    ghost predicate Valid()
      reads this
    {
      IsRun(lib, run, events) && run[|run| - 1] == NodeState(active, disk)
    }

    /** Every remote call from number `from` on was answered. */
    ghost predicate Answered(from: nat)
      reads this
    {
      forall k | from <= k < calls :: answers(k)
    }

    constructor (lib: Library, answers: nat -> bool, active: Bytes)
      ensures Valid() && this.lib == lib && this.answers == answers && this.active == active && run == [NodeState(active, active)]
      ensures calls == 0 && rebootRequests == 0
    {
      this.lib := lib;
      this.answers := answers;
      this.active, this.disk, boots, calls, rebootRequests := active, active, 0, 0, 0;
      run, events := [NodeState(active, active)], [];
    }

    ghost method Record(event: Event)
      requires IsRun(lib, run, events)
      requires var longer, log := run + [NodeState(active, disk)], events + [event]; StepAt(lib, longer, log, |events|)
      modifies this`run, this`events
      ensures Valid() && run == old(run) + [NodeState(active, disk)] && events == old(events) + [event]
    {
      var longer, log := run + [NodeState(active, disk)], events + [event];
      forall k | 0 <= k < |log|
        ensures StepAt(lib, longer, log, k)
      {
        if k < |events| {
          assert StepAt(lib, run, events, k);
        }
      }
      run, events := longer, log;
    }

    // ----- the node and its calls -----

    method BootNow()
      requires Valid()
      modifies this`active, this`disk, this`boots, this`run, this`events
      ensures Valid() && active == disk == old(disk) && boots == old(boots) + 1
      ensures run == old(run) + [NodeState(active, disk)] && events == old(events) + [Boot]
    {
      active := disk;
      boots := boots + 1;
      Record(Boot);
    }

    /** The node reboots on its own account, any number of times. */
    method Interfere()
      requires Valid()
      modifies this`active, this`disk, this`boots, this`run, this`events
      ensures Valid() && Extends(old(run), old(events), run, events) && OnlyBoots(events, |old(events)|)
      ensures boots - old(boots) == |events| - |old(events)|
    {
      var reboots: nat := *;
      while reboots > 0
        invariant Valid() && Extends(old(run), old(events), run, events) && OnlyBoots(events, |old(events)|)
        invariant boots - old(boots) == |events| - |old(events)|
      {
        BootNow();
        reboots := reboots - 1;
      }
    }

    method Call() returns (ok: bool)
      modifies this`calls
      ensures calls == old(calls) + 1 && ok == answers(old(calls))
    {
      ok := answers(calls);
      calls := calls + 1;
    }

    method ActiveMachineConfiguration() returns (observed: Option<Bytes>)
      modifies this`calls
      ensures calls == old(calls) + 1 && observed == if answers(old(calls)) then Some(active) else None
    {
      var ok := Call();
      observed := if ok then Some(active) else None;
    }

    /** Not counted among the calls: nothing but the wait for the reboot depends on its answer. */
    method BootTime() returns (time: Option<nat>)
      ensures time.Some? ==> time.value == boots
    {
      var reached: bool := *;
      return if reached then Some(boots) else None;
    }

    method ApplyConfigurationNoReboot(ghost seen: nat, desired: Bytes) returns (ok: bool)
      requires Valid() && seen < |run| && Permitted(lib, run[seen].active, desired)
      modifies this`active, this`disk, this`calls, this`run, this`events
      ensures Valid() && calls == old(calls) + 1 && ok == answers(old(calls))
      ensures ok ==> active == desired && events != old(events)
      ensures (run == old(run) && events == old(events))
              || (run == old(run) + [NodeState(desired, desired)] && events == old(events) + [ApplyNow(seen, desired)])
    {
      ok := Call();
      var taken: bool := *;
      if ok || taken {
        active, disk := desired, desired;
        Record(ApplyNow(seen, desired));
      }
    }

    method ApplyConfiguration(ghost seen: nat, desired: Bytes) returns (ok: bool)
      requires Valid() && seen < |run| && Permitted(lib, run[seen].active, desired)
      modifies this`disk, this`calls, this`run, this`events
      ensures Valid() && calls == old(calls) + 1 && ok == answers(old(calls))
      ensures ok ==> disk == desired && events != old(events)
      ensures (run == old(run) && events == old(events))
              || (run == old(run) + [NodeState(active, desired)] && events == old(events) + [Stage(seen, desired)])
    {
      ok := Call();
      var taken: bool := *;
      if ok || taken {
        disk := desired;
        Record(Stage(seen, desired));
      }
    }

    /** Asks for a reboot, which the node may carry out at any later moment. */
    method Reboot() returns (ok: bool)
      modifies this`calls, this`rebootRequests
      ensures calls == old(calls) + 1 && ok == answers(old(calls)) && rebootRequests == old(rebootRequests) + 1
    {
      rebootRequests := rebootRequests + 1;
      ok := Call();
    }

    // ----- the procedure -----

    /** Waits for the boot time to change, for as many polls as the timeout allows. */
    method ObserveReboot(previous: nat, polls: nat) returns (observed: bool)
      requires Valid()
      modifies this`active, this`disk, this`boots, this`run, this`events
      ensures Valid() && Extends(old(run), old(events), run, events) && OnlyBoots(events, |old(events)|)
      ensures boots - old(boots) == |events| - |old(events)|
      ensures observed ==> boots != previous
    {
      for poll := 0 to polls + 1
        invariant Valid() && Extends(old(run), old(events), run, events) && OnlyBoots(events, |old(events)|)
        invariant boots - old(boots) == |events| - |old(events)|
      {
        var time := BootTime();
        if time.Some? && time.value != previous {
          return true;
        }
        Interfere();
      }
      return false;
    }

    /** A gate that is not configured is None. At most one write, of the desired configuration, judged against what
        this call observed, in the mode the strategy names, and only past both gates; a staged write is followed by a request
        to reboot, and nothing else is. With open gates and every call answered, no write means that the change was not
        permitted or the strategy is unknown. */
    method ApplyConfigurationUpdate(strategy: string, desired: Bytes, endpointGate: Option<bool>, rebootGate: Option<bool>,
                                    servicesHealthy: bool, nodeReady: Option<bool>, polls: nat) returns (outcome: Outcome)
      requires Valid()
      modifies this
      ensures Valid() && Extends(old(run), old(events), run, events) && old(calls) <= calls
      ensures WritesAtMostOnce(events, |old(events)|)
      ensures AllWrittenAsDecided(lib, run, events, |old(events)|, |old(run)| - 1, strategy, desired, endpointGate, rebootGate)
      ensures strategy == "ApplyOnly" ==> forall k | |old(events)| <= k < |events| :: !events[k].Stage?
      ensures strategy == "ApplyOnly" || rebootGate == Some(false) ==> rebootRequests == old(rebootRequests)
      ensures strategy == "StagedReboot" || strategy == "" ==> forall k | |old(events)| <= k < |events| :: !events[k].ApplyNow?
      ensures strategy != "ApplyOnly" && rebootGate == Some(false) ==> OnlyBoots(events, |old(events)|)
      ensures strategy != "ApplyOnly" && strategy != "StagedReboot" && strategy != "" ==> OnlyBoots(events, |old(events)|)
      ensures old(rebootRequests) <= rebootRequests <= old(rebootRequests) + 1
      ensures rebootRequests > old(rebootRequests) ==> !OnlyBoots(events, |old(events)|)
      ensures Answered(old(calls)) && strategy != "ApplyOnly" && !OnlyBoots(events, |old(events)|) ==>
        rebootRequests == old(rebootRequests) + 1
      ensures outcome.Done? ==>
        && OnlyBoots(events, |old(events)|)
        && servicesHealthy && nodeReady != Some(false)
        && WasActive(lib, run, |old(run)| - 1, desired)
      ensures !Answered(old(calls)) ==> outcome == if calls == old(calls) + 1 then Retry else Stopped
      ensures outcome.Stopped? && desired != [] && Answered(old(calls)) ==>
        || (strategy != "ApplyOnly" && strategy != "StagedReboot" && strategy != "")
        || WasUnfit(lib, run, |old(run)| - 1, desired)
      ensures (&& desired != [] && Answered(old(calls)) && OnlyBoots(events, |old(events)|)
               && endpointGate != Some(false) && (rebootGate != Some(false) || strategy == "ApplyOnly")
               && (strategy == "ApplyOnly" || strategy == "StagedReboot" || strategy == "")) ==>
        WasRefused(lib, run, |old(run)| - 1, desired)
    {
      if desired == [] {
        return Stopped;
      }
      var observed, seen := Observe();
      if observed.None? {
        return Retry;
      }
      outcome := DecideAndAct(seen, observed.value, strategy, desired, endpointGate, rebootGate, servicesHealthy, nodeReady, polls,
                              events, |old(events)|);
    }

    /** The configuration observed in state `seen` is judged, and the judgement is carried out. Since event `from` the node has
        only rebooted. */
    method DecideAndAct(ghost seen: nat, observed: Bytes, strategy: string, desired: Bytes, endpointGate: Option<bool>,
                        rebootGate: Option<bool>, servicesHealthy: bool, nodeReady: Option<bool>, polls: nat,
                        ghost before: seq<Event>, ghost from: nat) returns (outcome: Outcome)
      requires Valid() && seen < |run| && observed == run[seen].active
      requires before == events && from <= |events| && OnlyBoots(events, from)
      modifies this
      ensures Valid() && Extends(old(run), old(events), run, events) && old(calls) <= calls
      ensures Permitted(lib, observed, desired) && strategy == "ApplyOnly" ==> AtMostOneWrite(events, from, ApplyNow(seen, desired))
      ensures Permitted(lib, observed, desired) && (strategy == "StagedReboot" || strategy == "") ==>
        AtMostOneWrite(events, from, Stage(seen, desired))
      ensures !Permitted(lib, observed, desired) || (strategy != "ApplyOnly" && strategy != "StagedReboot" && strategy != "") ==>
        OnlyBoots(events, from)
      ensures strategy != "ApplyOnly" && rebootGate == Some(false) ==> OnlyBoots(events, from)
      ensures endpointGate == Some(false) && !OnlyBoots(events, from) ==> SameEndpoint(lib, observed, desired)
      ensures old(rebootRequests) <= rebootRequests <= old(rebootRequests) + 1
      ensures rebootRequests > old(rebootRequests) ==>
        strategy != "ApplyOnly" && rebootGate != Some(false) && !OnlyBoots(events, from)
      ensures Answered(old(calls)) && strategy != "ApplyOnly" && !OnlyBoots(events, from) ==> rebootRequests == old(rebootRequests) + 1
      ensures outcome.Done? ==>
        OnlyBoots(events, from) && servicesHealthy && nodeReady != Some(false) && SameDigest(lib, observed, desired)
      ensures Classifiable(lib, observed, desired) && SameDigest(lib, observed, desired) ==>
        outcome == if servicesHealthy && nodeReady != Some(false) then Done else Retry
      ensures Permitted(lib, observed, desired) && !Answered(old(calls)) ==> outcome == Stopped
      ensures !Permitted(lib, observed, desired) ==> calls == old(calls)
      ensures outcome.Stopped? && Answered(old(calls)) ==>
        || (strategy != "ApplyOnly" && strategy != "StagedReboot" && strategy != "")
        || (!Permitted(lib, observed, desired) && !(Classifiable(lib, observed, desired) && SameDigest(lib, observed, desired)))
      ensures (&& Permitted(lib, observed, desired) && Answered(old(calls))
               && endpointGate != Some(false) && (rebootGate != Some(false) || strategy == "ApplyOnly")
               && (strategy == "ApplyOnly" || strategy == "StagedReboot" || strategy == "")) ==>
        !OnlyBoots(events, from)
    {
      var decision := Evaluate(lib, strategy, observed, desired);
      if decision.None? {
        return Stopped;
      }
      outcome := Act(seen, decision.value, desired, endpointGate, rebootGate, servicesHealthy, nodeReady, polls);
      if decision.value.mode.None? {
        BootsThenBoots(before, events, from);
      } else {
        BootsThenOneWrite(before, events, from, WriteIn(decision.value.mode.value, seen, desired));
      }
    }

    method Observe() returns (observed: Option<Bytes>, ghost seen: nat)
      requires Valid()
      modifies this`active, this`disk, this`boots, this`calls, this`run, this`events
      ensures Valid() && Extends(old(run), old(events), run, events) && OnlyBoots(events, |old(events)|)
      ensures |old(run)| - 1 <= seen < |run|
      ensures calls == old(calls) + 1 && observed == if answers(old(calls)) then Some(run[seen].active) else None
    {
      Interfere();
      observed := ActiveMachineConfiguration();
      seen := |run| - 1;
      Interfere();
    }

    /** Carries out a decision on the configuration observed in state `seen`. */
    method Act(ghost seen: nat, decision: Decision, desired: Bytes, endpointGate: Option<bool>, rebootGate: Option<bool>,
               servicesHealthy: bool, nodeReady: Option<bool>, polls: nat) returns (outcome: Outcome)
      requires Valid() && seen < |run|
      requires decision.change.Updatable? || decision.change.ControlPlaneEndpoint? <==> decision.mode.Some?
      requires decision.mode.Some? ==> Permitted(lib, run[seen].active, desired)
      modifies this
      ensures Valid() && Extends(old(run), old(events), run, events) && old(calls) <= calls
      ensures decision.mode.None? ==> OnlyBoots(events, |old(events)|) && calls == old(calls)
      ensures decision.mode.Some? ==> AtMostOneWrite(events, |old(events)|, WriteIn(decision.mode.value, seen, desired))
      ensures decision.mode == Some(StagedReboot) && rebootGate == Some(false) ==> OnlyBoots(events, |old(events)|)
      ensures decision.change.ControlPlaneEndpoint? && endpointGate == Some(false) ==> OnlyBoots(events, |old(events)|)
      ensures decision.change.ConflictingInvariant? || decision.change.ReprovisionRequired? ==> outcome == Stopped
      ensures decision.change.NoChange? ==> outcome == if servicesHealthy && nodeReady != Some(false) then Done else Retry
      ensures decision.mode.Some? ==> outcome == if Answered(old(calls)) then Retry else Stopped
      ensures decision.mode.Some? && endpointGate != Some(false) && Answered(old(calls)) ==>
        OnlyBoots(events, |old(events)|) ==> decision.mode.value.StagedReboot? && rebootGate == Some(false)
      ensures RebootsAsked(old(rebootRequests), decision.mode == Some(StagedReboot) && !OnlyBoots(events, |old(events)|), old(calls))
    {
      match decision.change
      case ConflictingInvariant =>
        return Stopped;
      case ReprovisionRequired =>
        return Stopped;
      case NoChange =>
        return if servicesHealthy && nodeReady != Some(false) then Done else Retry;
      case _ =>
        if decision.change.ControlPlaneEndpoint? && endpointGate == Some(false) {
          return Retry;
        }
        outcome := ApplyInMode(seen, decision.mode.value, desired, rebootGate, polls);
    }

    /** Of the calls since `from`, one asked for a reboot if `staged`, unless some call was not answered; otherwise none did. */
    ghost predicate RebootsAsked(before: nat, staged: bool, from: nat)
      reads this
    {
      && (rebootRequests == before || (staged && rebootRequests == before + 1))
      && (staged && Answered(from) ==> rebootRequests == before + 1)
    }

    method ApplyInMode(ghost seen: nat, mode: ApplyMode, desired: Bytes, rebootGate: Option<bool>, polls: nat) returns (outcome: Outcome)
      requires Valid() && seen < |run| && Permitted(lib, run[seen].active, desired)
      modifies this
      ensures Valid() && Extends(old(run), old(events), run, events) && old(calls) <= calls
      ensures outcome == if Answered(old(calls)) then Retry else Stopped
      ensures AtMostOneWrite(events, |old(events)|, WriteIn(mode, seen, desired))
      ensures mode.StagedReboot? && rebootGate == Some(false) ==> OnlyBoots(events, |old(events)|)
      ensures (rebootGate != Some(false) || mode.ApplyOnly?) && Answered(old(calls)) ==> !OnlyBoots(events, |old(events)|)
      ensures RebootsAsked(old(rebootRequests), mode.StagedReboot? && !OnlyBoots(events, |old(events)|), old(calls))
    {
      if mode.ApplyOnly? {
        Interfere();
        var applied := ApplyConfigurationNoReboot(seen, desired);
        assert applied ==> !events[|events| - 1].Boot?;
        return if applied then Retry else Stopped;
      }
      if rebootGate == Some(false) {
        return Retry;
      }
      outcome := StageAndReboot(seen, desired, polls);
    }

    /** The staged mode: stage, reboot, and wait for the boot time to change. */
    method StageAndReboot(ghost seen: nat, desired: Bytes, polls: nat) returns (outcome: Outcome)
      requires Valid() && seen < |run| && Permitted(lib, run[seen].active, desired)
      modifies this
      ensures Valid() && Extends(old(run), old(events), run, events) && old(calls) <= calls
      ensures outcome == if Answered(old(calls)) then Retry else Stopped
      ensures AtMostOneWrite(events, |old(events)|, Stage(seen, desired))
      ensures Answered(old(calls)) ==> !OnlyBoots(events, |old(events)|)
      ensures RebootsAsked(old(rebootRequests), !OnlyBoots(events, |old(events)|), old(calls))
    {
      Interfere();
      var bootTime := BootTime();
      Interfere();
      var staged := ApplyConfiguration(seen, desired);
      if !staged {
        return Stopped;
      }
      ghost var written := events;
      outcome := RebootAndWait(bootTime, polls);
      assert !written[|written| - 1].Boot? && events[|written| - 1] == written[|written| - 1];
    }

    method RebootAndWait(bootTime: Option<nat>, polls: nat) returns (outcome: Outcome)
      requires Valid()
      modifies this
      ensures Valid() && Extends(old(run), old(events), run, events) && OnlyBoots(events, |old(events)|)
      ensures calls == old(calls) + 1 && outcome == if answers(old(calls)) then Retry else Stopped
      ensures rebootRequests == old(rebootRequests) + 1
    {
      Interfere();
      var accepted := Reboot();
      if !accepted {
        return Stopped;
      }
      if bootTime.Some? {
        var _ := ObserveReboot(bootTime.value, polls);
      }
      return Retry;
    }
  }

  ghost predicate Extends(run0: seq<NodeState>, events0: seq<Event>, run: seq<NodeState>, events: seq<Event>) {
    run0 <= run && events0 <= events
  }

  ghost predicate OnlyBoots(events: seq<Event>, from: nat) {
    forall k | from <= k < |events| :: events[k].Boot?
  }

  ghost predicate WritesAtMostOnce(events: seq<Event>, from: nat) {
    forall j, k | from <= j < k < |events| :: events[j].Boot? || events[k].Boot?
  }

  /** Since `from` the node has been rebooting, and at most once has `write` been made. */
  ghost predicate AtMostOneWrite(events: seq<Event>, from: nat, write: Event) {
    && WritesAtMostOnce(events, from)
    && forall k | from <= k < |events| && !events[k].Boot? :: events[k] == write
  }

  function WriteIn(mode: ApplyMode, seen: nat, desired: Bytes): Event {
    if mode.ApplyOnly? then ApplyNow(seen, desired) else Stage(seen, desired)
  }

  lemma BootsThenBoots(before: seq<Event>, events: seq<Event>, from: nat)
    requires before <= events && from <= |before| && OnlyBoots(before, from) && OnlyBoots(events, |before|)
    ensures OnlyBoots(events, from)
  {
    forall k | from <= k < |before|
      ensures events[k].Boot?
    {
      assert before[k].Boot?;
    }
  }

  lemma BootsThenOneWrite(before: seq<Event>, events: seq<Event>, from: nat, write: Event)
    requires before <= events && from <= |before| && OnlyBoots(before, from) && AtMostOneWrite(events, |before|, write)
    ensures AtMostOneWrite(events, from, write)
    ensures OnlyBoots(events, |before|) ==> OnlyBoots(events, from)
  {
    BootsThenBoots(before, events[..|before|], from);
    if OnlyBoots(events, |before|) {
      BootsThenBoots(before, events, from);
    }
  }

  ghost predicate SameDigest(lib: Library, active: Bytes, desired: Bytes) {
    lib.digest(active).Some? && lib.digest(active) == lib.digest(desired)
  }

  /** At some moment since `from` the node ran a configuration with the digest of the desired one. */
  ghost predicate WasActive(lib: Library, run: seq<NodeState>, from: int, desired: Bytes) {
    exists s :: 0 <= s < |run| && from <= s && SameDigest(lib, run[s].active, desired)
  }

  /** At some moment since `from` the change was not permitted. */
  ghost predicate WasRefused(lib: Library, run: seq<NodeState>, from: int, desired: Bytes) {
    exists s :: 0 <= s < |run| && from <= s && !Permitted(lib, run[s].active, desired)
  }

  /** At some moment since `from` the difference could not be classified, or it was refused. */
  ghost predicate WasUnfit(lib: Library, run: seq<NodeState>, from: int, desired: Bytes) {
    exists s :: 0 <= s < |run| && from <= s && !Permitted(lib, run[s].active, desired)
                && !(Classifiable(lib, run[s].active, desired) && SameDigest(lib, run[s].active, desired))
  }

  ghost predicate WrittenAsDecided(lib: Library, run: seq<NodeState>, write: Event, start: nat, strategy: string, desired: Bytes,
                                   endpointGate: Option<bool>, rebootGate: Option<bool>)
  {
    && !write.Boot? && write.desired == desired && start <= write.seen < |run|
    && Permitted(lib, run[write.seen].active, desired)
    && (if write.ApplyNow? then strategy == "ApplyOnly"
        else (strategy == "StagedReboot" || strategy == "") && rebootGate != Some(false))
    && (endpointGate == Some(false) ==> SameEndpoint(lib, run[write.seen].active, desired))
  }

  ghost predicate AllWrittenAsDecided(lib: Library, run: seq<NodeState>, events: seq<Event>, from: nat, start: nat, strategy: string,
                                      desired: Bytes, endpointGate: Option<bool>, rebootGate: Option<bool>)
  {
    forall k | from <= k < |events| && !events[k].Boot? ::
      WrittenAsDecided(lib, run, events[k], start, strategy, desired, endpointGate, rebootGate)
  }

  ghost predicate SameEndpoint(lib: Library, active: Bytes, desired: Bytes) {
    && lib.load(active).Some? && lib.load(desired).Some?
    && lib.load(active).value.kubernetes.Some? && lib.load(desired).value.kubernetes.Some?
    && lib.load(active).value.kubernetes.value.endpoint == lib.load(desired).value.kubernetes.value.endpoint
  }
}
