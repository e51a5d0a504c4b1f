/** The lease that serializes cluster-wide Kubernetes upgrades between controller replicas
    (controller/tartcontrolplane/kubernetesupgrade.go). */
module UpgradeLease {
  import opened Wrappers

  /** Seconds a holder keeps the lease without renewing it. */
  const LEASE_DURATION: int := 300

  /** The lease spec; times are seconds on one clock. */
  datatype Lease = Lease(holder: Option<string>, durationSeconds: Option<int>, renewTime: Option<int>)

  function Duration(lease: Lease): int {
    if lease.durationSeconds.Some? && lease.durationSeconds.value > 0 then lease.durationSeconds.value else LEASE_DURATION
  }

  predicate Acquirable(lease: Option<Lease>, identity: string, now: int) {
    if identity == "" then false
    else if lease.None? then true
    else if lease.value.holder.None? || lease.value.holder.value == "" || lease.value.holder.value == identity then true
    else if lease.value.renewTime.None? then true
    else now >= lease.value.renewTime.value + Duration(lease.value)
  }

  function Held(identity: string, now: int): Lease {
    Lease(Some(identity), Some(LEASE_DURATION), Some(now))
  }

  /** Another replica holds the lease, and its time has not run out: the duration it states, if positive, or 300 seconds. */
  ghost predicate HeldByAnother(lease: Lease, identity: string, now: int) {
    && lease.holder.Some? && lease.holder.value != "" && lease.holder.value != identity
    && lease.renewTime.Some?
    && now < lease.renewTime.value + if lease.durationSeconds.Some? && lease.durationSeconds.value > 0 then lease.durationSeconds.value else 300
  }

  lemma AcquirableIff(lease: Option<Lease>, identity: string, now: int)
    ensures Acquirable(lease, identity, now) <==> identity != "" && (lease.Some? ==> !HeldByAnother(lease.value, identity, now))
  {
  }

  ghost predicate HeldBy(lease: Option<Lease>, identity: string) {
    lease.Some? && lease.value.holder == Some(identity)
  }

  // ----- the atomic writes -----

  /** `at` is the time the writer had read before it wrote. */
  datatype LeaseStep = Acquire(identity: string, at: int) | Renew(identity: string, at: int) | Release(identity: string)

  predicate IsLeaseStep(before: Option<Lease>, step: LeaseStep, after: Lease) {
    match step
    case Acquire(identity, at) => Acquirable(before, identity, at) && after == Lease(Some(identity), Some(300), Some(at))
    case Renew(identity, at) => before.Some? && before.value.holder == Some(identity) && after == before.value.(renewTime := Some(at))
    case Release(identity) => before.Some? && before.value.holder == Some(identity) && after == before.value.(holder := Some(""))
  }

  /** One committed write, with the clock at that moment. */
  datatype Entry = Entry(before: Option<Lease>, step: LeaseStep, after: Lease, clock: int)

  predicate Admissible(entry: Entry) {
    && IsLeaseStep(entry.before, entry.step, entry.after)
    && (!entry.step.Release? ==> entry.step.at <= entry.clock)
  }

  predicate By(step: LeaseStep, me: string) {
    step.identity == me
  }

  // ----- the replicas inside the upgrade section -----

  datatype System = System(lease: Option<Lease>, clock: int, inside: set<string>)

  /** A replica counts as inside from the acquisition that was confirmed to it; it releases only after it has left. */
  datatype Event = Pass(elapsed: nat) | Write(step: LeaseStep, entered: bool) | Leave(identity: string)

  ghost predicate Step(s: System, event: Event, t: System) {
    match event
    case Pass(elapsed) => t == s.(clock := s.clock + elapsed)
    case Write(step, entered) =>
      && t.lease.Some? && IsLeaseStep(s.lease, step, t.lease.value) && (!step.Release? ==> step.at <= s.clock)
      && (step.Release? ==> step.identity !in s.inside)
      && t == s.(lease := t.lease, inside := if entered && step.Acquire? then s.inside + {step.identity} else s.inside)
    case Leave(identity) => t == s.(inside := s.inside - {identity})
  }

  /** The assumption on renewals: the lease of a replica inside the section has not expired. */
  ghost predicate RenewedInTime(s: System) {
    forall r | r in s.inside && HeldBy(s.lease, r) ::
      s.lease.value.renewTime.Some? && s.clock < s.lease.value.renewTime.value + Duration(s.lease.value)
  }

  ghost predicate IsRun(run: seq<System>, events: seq<Event>) {
    && |run| == |events| + 1
    && run[0].lease.None? && run[0].inside == {}
    && forall k | 0 <= k < |events| :: StepAt(run, events, k)
  }

  ghost predicate StepAt(run: seq<System>, events: seq<Event>, k: int)
    requires 0 <= k < |events| && |run| == |events| + 1
  {
    Step(run[k], events[k], run[k + 1])
  }

  lemma RunExtends(run: seq<System>, events: seq<Event>, event: Event, t: System)
    requires IsRun(run, events) && Step(run[|run| - 1], event, t)
    ensures IsRun(run + [t], events + [event])
  {
    var longer, log := run + [t], events + [event];
    forall k | 0 <= k < |log|
      ensures StepAt(longer, log, k)
    {
      assert k < |events| ==> StepAt(run, events, k);
    }
  }

  /** The API server's record of the lease. */
  class LeaseStore {
    /** Whether the call with this number, of the replica whose calls are followed, is answered. A write without an answer may
        still have been made. */
    const answers: nat -> bool
    var calls: nat
    var current: Option<Lease>
    /** The resourceVersion, which every write increases. */
    var version: nat
    var clock: int
    /** The replicas inside the upgrade section. */
    var inside: set<string>
    ghost var issued: map<nat, Lease>
    ghost var log: seq<Entry>
    /** The whole history, step by step. */
    ghost var systems: seq<System>
    ghost var events: seq<Event>

    ghost predicate Valid()
      reads this
    {
      && version == |log|
      && (forall v | v in issued :: v <= version)
      && (current.Some? ==> version in issued && issued[version] == current.value)
      && IsLog(log, current, clock)
      && IsRun(systems, events)
      && systems[|systems| - 1] == System(current, clock, inside)
    }

    /** Every call from number `from` on was answered. */
    ghost predicate Answered(from: nat)
      reads this
    {
      forall k | from <= k < calls :: answers(k)
    }

    constructor (answers: nat -> bool, clock: int)
      ensures Valid() && current.None? && log == [] && this.clock == clock && inside == {} && this.answers == answers && calls == 0
    {
      this.answers, calls := answers, 0;
      current, version := None, 0;
      this.clock, inside := clock, {};
      systems, events := [System(None, clock, {})], [];
      issued, log := map[], [];
    }

    ghost method Record(event: Event)
      requires IsRun(systems, events) && Step(systems[|systems| - 1], event, System(current, clock, inside))
      modifies this`systems, this`events
      ensures IsRun(systems, events) && systems == old(systems) + [System(current, clock, inside)]
    {
      RunExtends(systems, events, event, System(current, clock, inside));
      systems, events := systems + [System(current, clock, inside)], events + [event];
    }

    method Commit(step: LeaseStep, after: Lease, entered: bool)
      requires Valid() && IsLeaseStep(current, step, after) && (!step.Release? ==> step.at <= clock)
      requires step.Release? ==> step.identity !in inside
      modifies this`current, this`version, this`inside, this`issued, this`log, this`systems, this`events
      ensures Valid() && current == Some(after)
      ensures log == old(log) + [Entry(old(current), step, after, clock)]
      ensures Grows(old(issued), issued) && old(systems) <= systems
      ensures inside == if entered && step.Acquire? then old(inside) + {step.identity} else old(inside)
    {
      LogExtends(log, current, clock, step, after);
      log := log + [Entry(current, step, after, clock)];
      version := version + 1;
      current := Some(after);
      issued := issued[version := after];
      if entered && step.Acquire? {
        inside := inside + {step.identity};
      }
      Record(Write(step, entered));
    }

    method Wait(elapsed: nat)
      requires Valid()
      modifies this`clock, this`systems, this`events
      ensures Valid() && clock == old(clock) + elapsed && old(systems) <= systems
    {
      clock := clock + elapsed;
      Record(Pass(elapsed));
    }

    method LeaveSection(identity: string)
      requires Valid()
      modifies this`inside, this`systems, this`events
      ensures Valid() && inside == old(inside) - {identity} && old(systems) <= systems
    {
      inside := inside - {identity};
      Record(Leave(identity));
    }

    /** Time passes, and the other replicas acquire, enter, renew, leave and release. */
    method Interfere(me: string)
      requires Valid()
      modifies this`current, this`version, this`clock, this`inside, this`issued, this`log, this`systems, this`events
      ensures Valid() && old(log) <= log && clock >= old(clock) && Grows(old(issued), issued)
      ensures OthersOnly(log, |old(log)|, me) && Onward(old(systems), systems, old(version), version)
      ensures me in inside <==> me in old(inside)
    {
      var steps: nat := *;
      while steps > 0
        invariant Valid() && old(log) <= log && clock >= old(clock) && Grows(old(issued), issued)
        invariant OthersOnly(log, |old(log)|, me) && Onward(old(systems), systems, old(version), version)
        invariant me in inside <==> me in old(inside)
      {
        var step: LeaseStep, after: Lease, elapsed: nat := *, *, *;
        var entered: bool, leaves: bool := *, *;
        if leaves && step.identity != me {
          LeaveSection(step.identity);
        } else if step.identity != me && IsLeaseStep(current, step, after)
                  && (if step.Release? then step.identity !in inside else step.at <= clock) {
          Commit(step, after, entered);
        }
        Wait(elapsed);
        steps := steps - 1;
      }
    }

    method Call() returns (ok: bool)
      modifies this`calls
      ensures calls == old(calls) + 1 && ok == answers(old(calls))
    {
      ok := answers(calls);
      calls := calls + 1;
    }

    method Get() returns (stored: Option<(nat, Lease)>, missing: bool)
      requires Valid()
      modifies this`calls
      ensures Valid() && calls == old(calls) + 1
      ensures missing <==> answers(old(calls)) && current.None?
      ensures stored == if answers(old(calls)) && current.Some? then Some((version, current.value)) else None
      ensures stored.Some? ==> stored.value.0 in issued && issued[stored.value.0] == stored.value.1
    {
      var ok := Call();
      if !ok {
        return None, false;
      }
      if current.None? {
        return None, true;
      }
      return Some((version, current.value)), false;
    }

    /** A Get after the others may have gone on. */
    method GetLater(me: string) returns (stored: Option<(nat, Lease)>, missing: bool)
      requires Valid()
      modifies this`calls, this`current, this`version, this`clock, this`inside, this`issued, this`log, this`systems, this`events
      ensures Valid() && Onward(old(systems), systems, old(version), version) && Grows(old(issued), issued)
      ensures old(log) <= log && calls == old(calls) + 1 && clock >= old(clock)
      ensures OthersOnly(log, |old(log)|, me) && (me in inside <==> me in old(inside))
      ensures missing <==> answers(old(calls)) && current.None?
      ensures stored == if answers(old(calls)) && current.Some? then Some((version, current.value)) else None
      ensures stored.Some? ==> stored.value.0 in issued && issued[stored.value.0] == stored.value.1
    {
      Interfere(me);
      stored, missing := Get();
    }

    /** Update with a resourceVersion, which conflicts if the lease has been written since that version was read. */
    method Update(version: nat, before: Lease, step: LeaseStep, after: Lease) returns (ok: bool)
      requires Valid() && version in issued && issued[version] == before
      requires IsLeaseStep(Some(before), step, after) && (!step.Release? ==> step.at <= clock)
      requires step.Release? ==> step.identity !in inside
      modifies this`calls, this`current, this`version, this`inside, this`issued, this`log, this`systems, this`events
      ensures Valid() && Grows(old(issued), issued) && Onward(old(systems), systems, old(this.version), this.version)
      ensures inside == if ok && step.Acquire? then old(inside) + {step.identity} else old(inside)
      ensures log == old(log) || (version == old(this.version) && log == old(log) + [Entry(Some(before), step, after, clock)])
      ensures ok ==> log != old(log) && answers(old(calls))
      ensures calls == old(calls) + 1
      ensures answers(old(calls)) && version == |old(log)| && old(current).Some? ==> ok
    {
      var answered := Call();
      var taken: bool := *;
      if current.None? || version != this.version {
        return false;
      }
      if answered || taken {
        Commit(step, after, answered);
      }
      return answered;
    }

    /** An Update after the others may have gone on. */
    method UpdateLater(me: string, version: nat, before: Lease, step: LeaseStep, after: Lease) returns (ok: bool)
      requires Valid() && version in issued && issued[version] == before && By(step, me)
      requires IsLeaseStep(Some(before), step, after) && (!step.Release? ==> step.at <= clock)
      requires step.Release? ==> step.identity !in inside
      modifies this`calls, this`current, this`version, this`clock, this`inside, this`issued, this`log, this`systems, this`events
      ensures Valid() && Onward(old(systems), systems, old(this.version), this.version) && Grows(old(issued), issued)
      ensures old(log) <= log && calls == old(calls) + 1 && clock >= old(clock)
      ensures (me in inside) == (me in old(inside) || (ok && step.Acquire?))
      ensures || OthersOnly(log, |old(log)|, me)
              || (IsOnlyWrite(log, |old(log)|, me, |log| - 1) && log[|log| - 1] == Entry(Some(before), step, after, clock))
      ensures ok ==> answers(old(calls)) && !OthersOnly(log, |old(log)|, me) && current == Some(after)
      ensures !ok && answers(old(calls)) && version == |old(log)| && old(current).Some? ==> !MineOnly(log, |old(log)|, me)
      ensures ok && MineOnly(log, |old(log)|, me) ==> |log| == |old(log)| + 1
    {
      Interfere(me);
      ghost var quiet := log;
      ok := Update(version, before, step, after);
      if |quiet| > |old(log)| {
        assert !By(log[|old(log)|].step, me);
      }
    }

    method Create(identity: string, at: int) returns (ok: bool)
      requires Valid() && identity != "" && at <= clock
      modifies this`calls, this`current, this`version, this`inside, this`issued, this`log, this`systems, this`events
      ensures Valid() && Grows(old(issued), issued) && Onward(old(systems), systems, old(version), version)
      ensures inside == if ok then old(inside) + {identity} else old(inside)
      ensures log == old(log)
        || (old(current).None? && log == old(log) + [Entry(None, Acquire(identity, at), Lease(Some(identity), Some(300), Some(at)), clock)])
      ensures ok ==> log != old(log) && answers(old(calls))
      ensures calls == old(calls) + 1
      ensures answers(old(calls)) && old(current).None? ==> ok
    {
      var answered := Call();
      var taken: bool := *;
      if current.Some? {
        return false;
      }
      if answered || taken {
        Commit(Acquire(identity, at), Held(identity, at), answered);
      }
      return answered;
    }

    /** A Create after the others may have gone on. */
    method CreateLater(me: string, at: int) returns (ok: bool)
      requires Valid() && me != "" && at <= clock
      modifies this`calls, this`current, this`version, this`clock, this`inside, this`issued, this`log, this`systems, this`events
      ensures Valid() && Onward(old(systems), systems, old(version), version) && Grows(old(issued), issued)
      ensures old(log) <= log && calls == old(calls) + 1 && clock >= old(clock)
      ensures (me in inside) == (me in old(inside) || ok)
      ensures || OthersOnly(log, |old(log)|, me)
              || (IsOnlyWrite(log, |old(log)|, me, |log| - 1)
                  && log[|log| - 1] == Entry(None, Acquire(me, at), Lease(Some(me), Some(300), Some(at)), clock))
      ensures ok ==> answers(old(calls)) && !OthersOnly(log, |old(log)|, me) && current == Some(Lease(Some(me), Some(300), Some(at)))
      ensures !ok && answers(old(calls)) && old(current).None? ==> !MineOnly(log, |old(log)|, me)
    {
      Interfere(me);
      ghost var quiet := log;
      ok := Create(me, at);
      if |quiet| > |old(log)| {
        assert !By(log[|old(log)|].step, me);
      }
    }

    /** At most one write: an acquisition decided on exactly the lease it replaced. Success means it was made; with every call
        answered, refusal means that a lease current during the call was another replica's and had been renewed in time, or that
        another replica wrote the lease meanwhile. */
    method AcquireKubernetesUpgradeLease(me: string) returns (acquired: bool)
      requires Valid() && me != ""
      modifies this`calls, this`current, this`version, this`clock, this`inside, this`issued, this`log, this`systems, this`events
      ensures Valid() && old(log) <= log && old(calls) <= calls
      ensures OthersOnly(log, |old(log)|, me) || exists w :: IsOnlyWrite(log, |old(log)|, me, w) && Acquires(log[w], me, old(clock))
      ensures acquired ==> !OthersOnly(log, |old(log)|, me) && current == Some(Lease(Some(me), Some(300), Some(old(clock))))
      ensures acquired ==> Answered(old(calls))
      ensures Onward(old(systems), systems, old(version), version)
      ensures acquired ==> me in inside
      ensures !acquired && me !in old(inside) ==> me !in inside
      ensures !acquired && Answered(old(calls)) ==>
        || (exists v :: v in issued && v >= old(version) && HeldByAnother(issued[v], me, old(clock)))
        || (exists k | |old(log)| <= k < |log| :: !By(log[k].step, me))
      ensures !acquired && Answered(old(calls)) && log == old(log) ==>
        old(current).Some? && HeldByAnother(old(current).value, me, old(clock))
    {
      var now := clock;
      var stored, missing := GetLater(me);
      ghost var quiet := log;
      assert stored.Some? ==> stored.value.0 in issued;
      acquired := AcquireAsRead(me, now, stored, missing);
      if !OthersOnly(log, |old(log)|, me) {
        assert IsOnlyWrite(log, |old(log)|, me, |log| - 1);
      }
    }

    /** The acquisition, decided on what the Get answered. */
    method AcquireAsRead(me: string, now: int, stored: Option<(nat, Lease)>, missing: bool) returns (acquired: bool)
      requires Valid() && me != "" && now <= clock
      requires missing ==> current.None?
      requires stored.Some? ==> stored.value.0 in issued && current.Some? && stored.value == (version, current.value)
      modifies this`calls, this`current, this`version, this`clock, this`inside, this`issued, this`log, this`systems, this`events
      ensures Valid() && Onward(old(systems), systems, old(version), version) && Grows(old(issued), issued)
      ensures old(log) <= log && old(calls) <= calls && (me in inside) == (me in old(inside) || acquired)
      ensures OthersOnly(log, |old(log)|, me) || (IsOnlyWrite(log, |old(log)|, me, |log| - 1) && Acquires(log[|log| - 1], me, now))
      ensures acquired ==> Answered(old(calls)) && (missing || stored.Some?)
      ensures acquired ==> !OthersOnly(log, |old(log)|, me) && current == Some(Lease(Some(me), Some(300), Some(now)))
      ensures !acquired && Answered(old(calls)) && (missing || stored.Some?) ==>
        || (stored.Some? && HeldByAnother(stored.value.1, me, now))
        || exists k | |old(log)| <= k < |log| :: !By(log[k].step, me)
    {
      acquired := false;
      if missing {
        acquired := CreateLater(me, now);
      } else if stored.Some? {
        AcquirableIff(Some(stored.value.1), me, now);
        if Acquirable(Some(stored.value.1), me, now) {
          acquired := UpdateLater(me, stored.value.0, stored.value.1, Acquire(me, now), Held(me, now));
        }
      }
    }

    /** Renews at every tick until the run ends or the lease is no longer this replica's. Every write it makes renews a lease this
        replica held at that very moment; while the replica holds the lease, every call is answered and nobody else writes,
        each tick renews it once. */
    method RenewKubernetesUpgradeLease(me: string, ticks: nat)
      requires Valid() && me != ""
      modifies this`calls, this`current, this`version, this`clock, this`inside, this`issued, this`log, this`systems, this`events
      ensures Valid() && old(log) <= log && old(calls) <= calls
      ensures forall k | |old(log)| <= k < |log| && By(log[k].step, me) :: Renews(log[k], me)
      ensures Onward(old(systems), systems, old(version), version) && (me in inside <==> me in old(inside))
      ensures HeldBy(old(current), me) && Answered(old(calls)) && MineOnly(log, |old(log)|, me) ==>
        |log| == |old(log)| + ticks && HeldBy(current, me)
      ensures old(current).Some? && !HeldBy(old(current), me) && Answered(old(calls)) && MineOnly(log, |old(log)|, me) ==>
        log == old(log) && calls <= old(calls) + 1
    {
      for tick := 0 to ticks
        invariant Valid() && old(log) <= log && old(calls) <= calls
        invariant forall k | |old(log)| <= k < |log| && By(log[k].step, me) :: Renews(log[k], me)
        invariant Onward(old(systems), systems, old(version), version) && (me in inside <==> me in old(inside))
        invariant HeldBy(old(current), me) && Answered(old(calls)) && MineOnly(log, |old(log)|, me) ==>
          |log| == |old(log)| + tick && HeldBy(current, me)
        invariant tick == 0 ==> log == old(log) && current == old(current) && calls == old(calls)
        invariant tick > 0 ==>
          !(old(current).Some? && !HeldBy(old(current), me) && Answered(old(calls)) && MineOnly(log, |old(log)|, me))
      {
        ghost var before := log;
        var lost := RenewOnce(me);
        assert MineOnly(log, |old(log)|, me) ==> MineOnly(before, |old(log)|, me) && MineOnly(log, |before|, me);
        if lost {
          return;
        }
      }
    }

    /** One tick. */
    method RenewOnce(me: string) returns (lost: bool)
      requires Valid() && me != ""
      modifies this`calls, this`current, this`version, this`clock, this`inside, this`issued, this`log, this`systems, this`events
      ensures Valid() && old(log) <= log && old(calls) <= calls
      ensures forall k | |old(log)| <= k < |log| && By(log[k].step, me) :: Renews(log[k], me)
      ensures Onward(old(systems), systems, old(version), version) && (me in inside <==> me in old(inside))
      ensures lost ==> exists v :: v in issued && v >= old(version) && issued[v].holder != Some(me)
      ensures old(current).Some? && !HeldBy(old(current), me) && Answered(old(calls)) && MineOnly(log, |old(log)|, me) ==>
        lost && log == old(log) && calls == old(calls) + 1
      ensures HeldBy(old(current), me) && Answered(old(calls)) && MineOnly(log, |old(log)|, me) ==>
        !lost && |log| == |old(log)| + 1 && HeldBy(current, me)
    {
      var stored, _ := GetLater(me);
      ghost var quiet := log;
      if stored.None? {
        return false;
      }
      OthersAndMine(old(log), quiet, log, me);
      if stored.value.1.holder != Some(me) {
        return true;
      }
      var now := clock;
      var _ := UpdateLater(me, stored.value.0, stored.value.1, Renew(me, now), stored.value.1.(renewTime := Some(now)));
      OthersAndMine(old(log), quiet, log, me);
      return false;
    }

    /** At most one write: giving up a lease this replica held at that very moment. With every call answered, no write means that
        there was no lease, that one was read which this replica did not hold, or that another replica wrote it meanwhile. */
    method ReleaseKubernetesUpgradeLease(me: string)
      requires Valid() && me != "" && me !in inside
      modifies this`calls, this`current, this`version, this`clock, this`inside, this`issued, this`log, this`systems, this`events
      ensures Valid() && old(log) <= log && old(calls) <= calls
      ensures OthersOnly(log, |old(log)|, me) || exists w :: IsOnlyWrite(log, |old(log)|, me, w) && GivesUp(log[w], me)
      ensures Onward(old(systems), systems, old(version), version) && me !in inside
      ensures OthersOnly(log, |old(log)|, me) && Answered(old(calls)) ==>
        || old(current).None?
        || (exists v :: v in issued && v >= old(version) && !HeldBy(Some(issued[v]), me))
        || (exists k | |old(log)| <= k < |log| :: !By(log[k].step, me))
      ensures HeldBy(old(current), me) && Answered(old(calls)) && MineOnly(log, |old(log)|, me) ==>
        |log| == |old(log)| + 1 && GivesUp(log[|old(log)|], me)
      ensures clock >= old(clock) && Grows(old(issued), issued)
    {
      var stored, _ := GetLater(me);
      ghost var quiet := log;
      if stored.None? || stored.value.1.holder != Some(me) {
        assert stored.Some? ==> stored.value.0 in issued;
        return;
      }
      var _ := UpdateLater(me, stored.value.0, stored.value.1, Release(me), stored.value.1.(holder := Some("")));
      if !OthersOnly(log, |old(log)|, me) {
        assert IsOnlyWrite(log, |old(log)|, me, |log| - 1);
      }
      OthersAndMine(old(log), quiet, log, me);
    }

    /** The run section of one replica: renewing goes on beside the upgrade, and the lease is given up after it, while one
        last renewal may still be under way. Whatever the others do, the history stays a run of the replicas, and this one is
        outside again at the end. With every call answered and nobody else writing, it is refused only while another replica
        holds the lease; otherwise each tick renews the lease, and it has been given up at the end. */
    method RunUpgradeSection(me: string, ticks: nat) returns (ran: bool)
      requires Valid() && me != "" && me !in inside
      modifies this
      ensures Valid() && me !in inside && Onward(old(systems), systems, old(version), version)
      ensures old(log) <= log && old(calls) <= calls
      ensures ran ==> exists k :: |old(systems)| <= k < |systems| && me in systems[k].inside
      ensures !ran && Answered(old(calls)) && log == old(log) ==>
        old(current).Some? && HeldByAnother(old(current).value, me, old(clock))
      ensures ran && Answered(old(calls)) && MineOnly(log, |old(log)|, me) ==>
        |log| >= |old(log)| + ticks + 2 && current.Some? && current.value.holder == Some("")
    {
      ran := AcquireKubernetesUpgradeLease(me);
      if !ran {
        return;
      }
      ghost var entered, acquired := systems, log;
      RenewKubernetesUpgradeLease(me, ticks);
      ghost var renewed := log;
      assert me in systems[|entered| - 1].inside;
      EndUpgradeSection(me);
      assert MineOnly(log, |old(log)|, me) ==>
        MineOnly(renewed, |acquired|, me) && MineOnly(log, |renewed|, me) && acquired != old(log);
    }

    /** The end of the section, while the renewing goroutine may have read the lease for one more renewal. */
    method EndUpgradeSection(me: string)
      requires Valid() && me != ""
      modifies this`calls, this`current, this`version, this`clock, this`inside, this`issued, this`log, this`systems, this`events
      ensures Valid() && me !in inside && Onward(old(systems), systems, old(version), version)
      ensures old(log) <= log && old(calls) <= calls
      ensures HeldBy(old(current), me) && Answered(old(calls)) && MineOnly(log, |old(log)|, me) ==>
        |log| > |old(log)| && current.Some? && current.value.holder == Some("")
    {
      var stored, _ := GetLater(me);
      ghost var quiet := log;
      var now := clock;
      Interfere(me);
      ghost var still := log;
      LeaveAndRelease(me, stored, now);
      assert MineOnly(log, |old(log)|, me) ==> quiet == old(log) && still == quiet by {
        OthersAndMine(old(log), quiet, log, me);
        OthersAndMine(quiet, still, log, me);
      }
    }

    /** Leaves, then releases; the renewal read as `stored` is finished before or after the release, if at all. */
    method LeaveAndRelease(me: string, stored: Option<(nat, Lease)>, now: int)
      requires Valid() && me != "" && now <= clock
      requires stored.Some? ==> stored.value.0 in issued && issued[stored.value.0] == stored.value.1
      modifies this`calls, this`current, this`version, this`clock, this`inside, this`issued, this`log, this`systems, this`events
      ensures Valid() && me !in inside && Onward(old(systems), systems, old(version), version)
      ensures old(log) <= log && old(calls) <= calls
      ensures HeldBy(old(current), me) && Answered(old(calls)) && MineOnly(log, |old(log)|, me) ==>
        |log| > |old(log)| && current.Some? && current.value.holder == Some("")
    {
      LeaveSection(me);
      var early: bool := *;
      if early {
        FinishRenewal(me, stored, now);
      }
      ghost var before := log;
      ReleaseKubernetesUpgradeLease(me);
      ghost var released := log;
      if !early {
        FinishRenewal(me, stored, now);
      }
      assert MineOnly(log, |old(log)|, me) ==> MineOnly(released, |before|, me);
    }

    /** A renewal that was under way when its context was cancelled: it may still be written, if the lease read for it was
        this replica's and is still current. */
    method FinishRenewal(me: string, stored: Option<(nat, Lease)>, now: int)
      requires Valid() && me != "" && now <= clock
      requires stored.Some? ==> stored.value.0 in issued && issued[stored.value.0] == stored.value.1
      modifies this`calls, this`current, this`version, this`inside, this`issued, this`log, this`systems, this`events
      ensures Valid() && Onward(old(systems), systems, old(version), version) && Grows(old(issued), issued) && old(calls) <= calls
      ensures inside == old(inside)
      ensures log == old(log)
        || (&& stored.Some? && stored.value.0 == |old(log)| && stored.value.1.holder == Some(me)
            && log == old(log) + [Entry(Some(stored.value.1), Renew(me, now), stored.value.1.(renewTime := Some(now)), clock)])
    {
      var cancelled: bool := *;
      if !cancelled && stored.Some? && stored.value.1.holder == Some(me) {
        var _ := Update(stored.value.0, stored.value.1, Renew(me, now), stored.value.1.(renewTime := Some(now)));
      }
    }
  }

  /** `me` took the lease, which no other replica held in time, for 300 seconds from the time it had read. */
  ghost predicate Acquires(entry: Entry, me: string, now: int) {
    && entry.step == Acquire(me, now) && entry.after == Lease(Some(me), Some(300), Some(now))
    && (entry.before.Some? ==> !HeldByAnother(entry.before.value, me, now))
  }

  /** `me` held the lease and moved its renew time to a time it had read. */
  ghost predicate Renews(entry: Entry, me: string) {
    && entry.before.Some? && entry.before.value.holder == Some(me) && entry.step.Renew? && entry.step.at <= entry.clock
    && entry.after == Lease(Some(me), entry.before.value.durationSeconds, Some(entry.step.at))
  }

  /** `me` held the lease and left it without a holder. */
  ghost predicate GivesUp(entry: Entry, me: string) {
    && entry.before.Some? && entry.before.value.holder == Some(me) && entry.step == Release(me)
    && entry.after == Lease(Some(""), entry.before.value.durationSeconds, entry.before.value.renewTime)
  }

  ghost predicate MineOnly(log: seq<Entry>, from: nat, me: string) {
    forall k | from <= k < |log| :: By(log[k].step, me)
  }

  /** Where only `me` wrote, the others wrote nothing. */
  lemma OthersAndMine(before: seq<Entry>, after: seq<Entry>, log: seq<Entry>, me: string)
    requires before <= after <= log && OthersOnly(after, |before|, me)
    ensures MineOnly(log, |before|, me) ==> after == before
  {
    if |after| > |before| {
      assert log[|before|] == after[|before|];
    }
  }

  /** History only grows. */
  ghost predicate Onward(before: seq<System>, after: seq<System>, version: nat, later: nat) {
    before <= after && version <= later
  }

  /** The writes are admissible and follow one another, and the last one left the current lease. */
  ghost predicate IsLog(log: seq<Entry>, current: Option<Lease>, clock: int) {
    && (forall k | 0 <= k < |log| :: Admissible(log[k]) && log[k].clock <= clock)
    && (forall k | 0 < k < |log| :: Chained(log, k))
    && (if log == [] then current.None? else current == Some(log[|log| - 1].after))
  }

  lemma LogExtends(log: seq<Entry>, current: Option<Lease>, clock: int, step: LeaseStep, after: Lease)
    requires IsLog(log, current, clock) && IsLeaseStep(current, step, after) && (!step.Release? ==> step.at <= clock)
    ensures IsLog(log + [Entry(current, step, after, clock)], Some(after), clock)
  {
    var longer := log + [Entry(current, step, after, clock)];
    assert forall k | 0 < k < |log| :: Chained(log, k) ==> Chained(longer, k);
  }

  ghost predicate Chained(log: seq<Entry>, k: int)
    requires 0 < k < |log|
  {
    log[k].before == Some(log[k - 1].after)
  }

  ghost predicate Grows(before: map<nat, Lease>, after: map<nat, Lease>) {
    forall v | v in before :: v in after && after[v] == before[v]
  }

  ghost predicate OthersOnly(log: seq<Entry>, from: nat, me: string) {
    forall k | from <= k < |log| :: !By(log[k].step, me)
  }

  ghost predicate IsOnlyWrite(log: seq<Entry>, from: nat, me: string, w: int) {
    && from <= w < |log| && By(log[w].step, me)
    && forall k | from <= k < |log| && k != w :: !By(log[k].step, me)
  }

  // ----- how the lease changes hands -----

  /** Write `k` ends the tenancy of `from`: `from` released it, or somebody acquired it when it had expired. */
  ghost predicate EndsTenancy(entry: Entry, from: string) {
    && HeldBy(entry.before, from)
    && (entry.step == Release(from)
        || (entry.step.Acquire? && entry.step.identity != from
            && (entry.before.value.renewTime.None? || entry.clock >= entry.before.value.renewTime.value + Duration(entry.before.value))))
  }

  /** Between two moments with different holders, the first holder released the lease or let it expire. */
  lemma {:induction false} HolderChangesOnlyByReleaseOrExpiry(store: LeaseStore, i: nat, j: nat, from: string) returns (k: nat)
    requires store.Valid() && i < j < |store.log| && from != ""
    requires HeldBy(Some(store.log[i].after), from) && !HeldBy(Some(store.log[j].after), from)
    ensures i < k <= j && EndsTenancy(store.log[k], from)
    decreases j - i
  {
    assert Chained(store.log, i + 1);
    assert Admissible(store.log[i + 1]);
    if HeldBy(Some(store.log[i + 1].after), from) {
      k := HolderChangesOnlyByReleaseOrExpiry(store, i + 1, j, from);
    } else {
      k := i + 1;
    }
  }

  // ----- mutual exclusion of the upgrade section -----

  ghost predicate Exclusive(s: System) {
    && (forall r | r in s.inside :: r != "" && HeldBy(s.lease, r))
    && (s.lease.Some? ==> s.lease.value.durationSeconds == Some(LEASE_DURATION))
  }

  /** As long as renewals come in time, every replica inside holds the lease, so at most one is inside. */
  lemma {:induction false} AtMostOneInside(run: seq<System>, events: seq<Event>, n: nat)
    requires IsRun(run, events) && n < |run|
    requires forall k | 0 <= k < n :: RenewedInTime(run[k])
    ensures Exclusive(run[n])
    ensures forall r, q | r in run[n].inside && q in run[n].inside :: r == q
  {
    if n > 0 {
      AtMostOneInside(run, events, n - 1);
      assert StepAt(run, events, n - 1);
      assert RenewedInTime(run[n - 1]);
    }
  }

  /** So at no moment of the replicas' real history are two of them inside. */
  lemma AtMostOneReplicaRuns(store: LeaseStore, n: nat, a: string, b: string)
    requires store.Valid() && n < |store.systems|
    requires forall k | 0 <= k < n :: RenewedInTime(store.systems[k])
    ensures a in store.systems[n].inside && b in store.systems[n].inside ==> a == b
  {
    AtMostOneInside(store.systems, store.events, n);
  }

  /** The assumption cannot be dropped: a run in which a replica lets its lease expire admits a second one. */
  lemma LapsedRenewalAdmitsASecond() returns (run: seq<System>, events: seq<Event>)
    ensures IsRun(run, events)
    ensures var last := run[|run| - 1].inside; "a" in last && "b" in last
    ensures |run| == 4 && !RenewedInTime(run[2])
  {
    var s0 := System(None, 0, {});
    var s1 := System(Some(Held("a", 0)), 0, {"a"});
    var s2 := System(Some(Held("a", 0)), 300, {"a"});
    var s3 := System(Some(Held("b", 300)), 300, {"a"} + {"b"});
    run := [s0, s1, s2, s3];
    events := [Write(Acquire("a", 0), true), Pass(300), Write(Acquire("b", 300), true)];
    assert s0.inside + {"a"} == {"a"};
    assert StepAt(run, events, 0) && StepAt(run, events, 1) && StepAt(run, events, 2);
    assert "a" in s2.inside && HeldBy(s2.lease, "a");
  }
}
