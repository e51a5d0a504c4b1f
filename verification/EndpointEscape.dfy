/** A rollout in which an update escapes the endpoint gate (controller/tartmachine/configuration_update.go,
    controller/runtimeextension/updateapply.go). */
module EndpointEscape {
  import opened Certificates
  import opened ChangeClassification
  import opened EndpointRollout
  import opened StorageChange
  import opened Wrappers

  function Machine(endpoint: string, minSize: Option<nat>): Configuration {
    Configuration(Some(MachineSection("controlplane", None, "t")), Some(ClusterSection("i", "s", None)), None, None, None,
                  Some(KubernetesCluster("c", Some(endpoint))), [], [], None, [Volume(UserVolume, "data", None, minSize, None)])
  }

  /** [0] is in force, [1] is the same without the volume's minimum, and [2] names the new endpoint and halves the minimum. */
  function ThreeConfigurations(): Library {
    Library(b => if b == [0] then Some(Machine("old", Some(10))) else if b == [1] then Some(Machine("old", None))
                 else if b == [2] then Some(Machine("new", Some(5))) else None,
            b => Some(b), b => Some(b), b => Some(b), s => s)
  }

  lemma OnlyVolume(volume: Document)
    requires volume.Volume?
    ensures Index([volume]) == map[Key(volume) := volume]
  {
    assert [volume][..0] == [];
  }

  /** How the three configurations judge each other's volume. */
  lemma Volumes(active: Option<nat>, desired: Option<nat>)
    ensures StorageAccepted(Machine("old", active).documents, Machine("new", desired).documents)
      <==> (active.Some? && desired.Some? ==> desired.value >= active.value)
  {
    var a, d := Volume(UserVolume, "data", None, active, None), Volume(UserVolume, "data", None, desired, None);
    OnlyVolume(a);
    OnlyVolume(d);
    assert Key(a) == Key(d);
    AcceptanceMeaning(a, d);
    assert Objection([a], [d], Key(a)) == DestructiveStorageDocumentChange(a, d);
  }

  lemma Classes()
    ensures var lib := ThreeConfigurations();
      && Permitted(lib, [0], [1]) && Refused(lib, [0], [2]) && EndpointChange(lib, [1], [2]) && DigestsCoverTheEndpoint(lib)
  {
    var lib := ThreeConfigurations();
    assert lib.load([0]) == Some(Machine("old", Some(10))) && lib.load([1]) == Some(Machine("old", None));
    assert lib.load([2]) == Some(Machine("new", Some(5)));
    Volumes(Some(10), None);
    Volumes(Some(10), Some(5));
    Volumes(None, Some(5));
  }

  ghost function TwoControlPlanes(lib: Library, a: Bytes, d: Bytes): Rollout
    requires EndpointOf(lib, d).Some?
  {
    Rollout(lib, [Member("a", "0", "c", "c", true, false), Member("b", "1", "c", "c", true, false)], "c", EndpointOf(lib, d).value)
  }

  function EscapingRun(a: Bytes, s: Bytes, d: Bytes, endpoint: string): seq<State> {
    var first := Status(a, a, endpoint, true, true, false);
    var second := Status(a, s, endpoint, true, true, false);
    var booted := Status(s, s, endpoint, true, true, false);
    [[first, second], [first, booted], [first, Status(s, d, endpoint, true, true, true)]]
  }

  function EscapingEvents(d: Bytes): seq<Event> {
    [Boot(1), Apply(1, 0, 1, d, true)]
  }

  /** Configurations that `a` refuses and `s` takes: `a` in force, `s` staged, `d` desired. */
  ghost predicate Escaping(lib: Library, a: Bytes, s: Bytes, d: Bytes) {
    && DigestsCoverTheEndpoint(lib)
    && Refused(lib, a, d) && EndpointChange(lib, s, d)
    && EndpointOf(lib, a).Some? && EndpointOf(lib, d).Some? && EndpointOf(lib, a) != EndpointOf(lib, d)
  }

  lemma EscapingRunIsARun(lib: Library, a: Bytes, s: Bytes, d: Bytes)
    requires Escaping(lib, a, s, d)
    ensures var r, run := TwoControlPlanes(lib, a, d), EscapingRun(a, s, d, EndpointOf(lib, a).value);
      IsRun(r, run, EscapingEvents(d)) && Escapes(r, run, 1, EscapingEvents(d)[1])
  {
    var r, run, events := TwoControlPlanes(lib, a, d), EscapingRun(a, s, d, EndpointOf(lib, a).value), EscapingEvents(d);
    assert Reads(r, run, 1, events[1]) && !GateIsAsked(r, run, 1, events[1]);
    assert Untouched(r, run[0][0]) && Untouched(r, run[0][1]);
    assert run[1] == Successor(r, run, 0, events[0]) && run[2] == Successor(r, run, 1, events[1]);
    assert StepAt(r, run, events, 0) && StepAt(r, run, events, 1);
  }

  /** Wherever such configurations come together, the order is lost: the second of two control planes boots into what was
      staged on it between the two reads of its update. The first read's class switches lease and gate off, and the second
      read lets the new endpoint through while the first control plane still runs the old one. */
  lemma EscapedUpdateRunsAhead(lib: Library, a: Bytes, s: Bytes, d: Bytes)
    requires Escaping(lib, a, s, d)
    ensures var r, run, events := TwoControlPlanes(lib, a, d), EscapingRun(a, s, d, EndpointOf(lib, a).value), EscapingEvents(d);
      && IsRun(r, run, events) && Stable(r, run)
      && Escapes(r, run, 1, events[1]) && !GateOpen(r, run, 1, 1)
      && r.Precedes(0, 1) && run[2][1].updated && !run[2][0].updated && !InOrder(r, run, 2)
  {
    EscapingRunIsARun(lib, a, s, d);
    var r, run := TwoControlPlanes(lib, a, d), EscapingRun(a, s, d, EndpointOf(lib, a).value);
    assert forall k, c | 0 <= k < 3 :: !ReportedAt(r, run, k, c);
    assert StableAt(r, run, 0) && StableAt(r, run, 1);
    assert r.Precedes(0, 1) && !SeenConverged(r, run, 1, 0);
  }

  /** Such configurations exist. */
  lemma SomeConfigurationsEscape()
    ensures Permitted(ThreeConfigurations(), [0], [1]) && Escaping(ThreeConfigurations(), [0], [1], [2])
  {
    Classes();
  }
}
