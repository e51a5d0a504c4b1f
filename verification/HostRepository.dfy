/** Claiming and retaining a Host with optimistic concurrency (adapter/kubernetes/tarthostrepository.go):
    bounded retry loops over a store that accepts an update only for the version it currently holds. */
module HostRepository {
  import opened Wrappers
  import opened HostClaims

  const CLAIM_ATTEMPTS: nat := 3

  /** One committed write, with the caller that made it. */
  datatype Entry = Entry(actor: nat, before: Host, step: HostStep, after: Host)

  datatype UpdateOutcome = Updated(version: nat) | Conflict | Failed

  /** The Host object the caller passes by pointer: a copy of some stored version. */
  class HostCell {
    var version: nat
    var host: Host

    constructor (version: nat, host: Host)
      ensures this.version == version && this.host == host
    {
      this.version := version;
      this.host := host;
    }
  }

  /** The API server's record of one Host. */
  class HostStore {
    var current: Option<Host>
    /** The resourceVersion, which every write increases. */
    var version: nat
    /** Whether the call with this number, of the controller whose calls are followed, is answered. A write without an answer may
        still have been made. */
    const answers: nat -> bool
    var calls: nat
    /** Every content ever stored, by resourceVersion; a version is never used twice. */
    ghost var issued: map<nat, Host>
    /** Every committed write, in order. */
    ghost var log: seq<Entry>

    ghost predicate Valid()
      reads this
    {
      && version == |log| + 1
      && (forall v | v in issued :: v <= version)
      && (current.Some? ==> version in issued && issued[version] == current.value)
      && IsLog(log)
      && (log != [] && current.Some? ==> log[|log| - 1].after == current.value)
    }

    /** The caller's copy is a version this store has handed out. */
    ghost predicate IsSnapshot(cell: HostCell)
      reads this, cell
    {
      cell.version in issued && issued[cell.version] == cell.host
    }

    /** Every call from number `from` on was answered. */
    ghost predicate Answered(from: nat)
      reads this
    {
      forall k | from <= k < calls :: answers(k)
    }

    constructor (answers: nat -> bool, host: Host)
      ensures Valid() && current == Some(host) && log == [] && issued == map[version := host]
      ensures this.answers == answers && calls == 0
    {
      this.answers, calls := answers, 0;
      current := Some(host);
      version := 1;
      issued := map[1 := host];
      log := [];
    }

    method Commit(actor: nat, ghost step: HostStep, after: Host)
      requires Valid() && current.Some? && IsStep(current.value, step, after)
      modifies this`current, this`version, this`issued, this`log
      ensures Valid() && current == Some(after)
      ensures log == old(log) + [Entry(actor, old(current).value, step, after)]
      ensures issued == old(issued)[version := after] && Grows(old(issued), issued)
    {
      LogExtends(log, Entry(actor, current.value, step, after));
      ghost var before := current.value;
      version := version + 1;
      current := Some(after);
      issued := issued[version := after];
      log := log + [Entry(actor, before, step, after)];
    }

    /** Anything the other writers may do between two calls: any number of their own steps, or removing the Host. */
    method Interfere(me: nat)
      requires Valid()
      modifies this`current, this`version, this`issued, this`log
      ensures Valid() && old(log) <= log && Grows(old(issued), issued)
      ensures OthersOnly(log, |old(log)|, me)
      ensures current.Some? ==> old(current).Some?
    {
      var steps: nat := *;
      while steps > 0
        invariant Valid() && old(log) <= log && Grows(old(issued), issued)
        invariant OthersOnly(log, |old(log)|, me)
        invariant current.Some? ==> old(current).Some?
      {
        var actor: nat, step: HostStep, after: Host := *, *, *;
        var removed: bool := *;
        if removed {
          current := None;
        } else if actor != me && current.Some? && IsStep(current.value, step, after) {
          Commit(actor, step, after);
        }
        steps := steps - 1;
      }
    }

    method Call() returns (ok: bool)
      modifies this`calls
      ensures calls == old(calls) + 1 && ok == answers(old(calls))
    {
      ok := answers(calls);
      calls := calls + 1;
    }

    /** Update with a resourceVersion, which conflicts if the Host has been written since that version was read. */
    method Update(me: nat, version: nat, ghost before: Host, ghost step: HostStep, after: Host) returns (outcome: UpdateOutcome)
      requires Valid() && version in issued && issued[version] == before && IsStep(before, step, after)
      modifies this`calls, this`current, this`version, this`issued, this`log
      ensures Valid() && Grows(old(issued), issued) && (current.Some? <==> old(current).Some?)
      ensures log == old(log) || (log == old(log) + [Entry(me, before, step, after)] && old(current) == Some(before))
      ensures outcome.Updated? ==> log != old(log) && outcome.version in issued && issued[outcome.version] == after
      ensures outcome.Conflict? ==> log == old(log)
      ensures calls == old(calls) + 1
      ensures outcome.Failed? <==> !answers(old(calls)) || old(current).None?
      ensures !outcome.Failed? ==> (outcome.Conflict? <==> version != |old(log)| + 1)
    {
      var answered := Call();
      var taken: bool := *;
      if current.None? {
        return Failed;
      }
      if version != this.version {
        return if answered then Conflict else Failed;
      }
      if answered || taken {
        Commit(me, step, after);
      }
      return if answered then Updated(this.version) else Failed;
    }

    method Get() returns (stored: Option<(nat, Host)>)
      requires Valid()
      modifies this`calls
      ensures Valid() && calls == old(calls) + 1
      ensures stored == if answers(old(calls)) && current.Some? then Some((version, current.value)) else None
      ensures stored.Some? ==> stored.value.0 in issued && issued[stored.value.0] == stored.value.1
    {
      var answered := Call();
      if !answered || current.None? {
        return None;
      }
      return Some((version, current.value));
    }
  }

  /** Every write was an admissible step of the state it replaced. */
  ghost predicate IsLog(log: seq<Entry>) {
    && (forall k | 0 <= k < |log| :: Admissible(log[k]))
    && (forall k | 0 < k < |log| :: Chained(log, k))
  }

  ghost predicate Admissible(entry: Entry) {
    IsStep(entry.before, entry.step, entry.after)
  }

  lemma LogExtends(log: seq<Entry>, entry: Entry)
    requires IsLog(log) && Admissible(entry)
    requires log != [] ==> log[|log| - 1].after == entry.before
    ensures IsLog(log + [entry])
  {
    var longer := log + [entry];
    forall k | 0 < k < |longer|
      ensures Chained(longer, k)
    {
      if k < |log| {
        assert Chained(log, k);
      }
    }
  }

  /** Nothing stored is ever forgotten or rewritten. */
  ghost predicate Grows(before: map<nat, Host>, after: map<nat, Host>) {
    forall v | v in before :: v in after && after[v] == before[v]
  }

  /** From position `from` on, only other actors wrote. */
  ghost predicate OthersOnly(log: seq<Entry>, from: nat, me: nat) {
    forall k | from <= k < |log| :: log[k].actor != me
  }

  /** Each write replaced exactly the state the previous one had left. */
  ghost predicate Chained(log: seq<Entry>, k: int)
    requires 0 < k < |log|
  {
    log[k].before == log[k - 1].after
  }

  /** `me` added at most one entry beyond `from`, and that entry performed `step`. */
  ghost predicate AtMostOne(log: seq<Entry>, from: nat, me: nat, step: HostStep, written: bool) {
    && from <= |log|
    && (!written ==> OthersOnly(log, from, me))
    && (written ==> exists w :: IsOnlyWrite(log, from, me, step, w))
  }

  ghost predicate IsOnlyWrite(log: seq<Entry>, from: nat, me: nat, step: HostStep, w: int) {
    && from <= w < |log| && log[w].actor == me && log[w].step == step
    && forall k | from <= k < |log| && k != w :: log[k].actor != me
  }

  /** The request a claim is decided on: the Host ID seen at the first read is pinned. */
  function Pinned(host: Host, req: ClaimRequest): ClaimRequest {
    if req.expectedHostID == "" then req.(expectedHostID := host.spec.hostID) else req
  }

  datatype Attempt = Committed | Refreshed | StillConflicting | Broken

  /** From position `from` on, nobody else wrote. */
  ghost predicate MineOnly(log: seq<Entry>, from: nat, me: nat) {
    forall k | from <= k < |log| :: log[k].actor == me
  }

  /** The caller's copy was out of date, or became so during the call. */
  twostate predicate Outdated(store: HostStore, cell: HostCell)
    reads store, cell
  {
    old(cell.version) != old(store.version) || |store.log| > |old(store.log)|
  }

  /** The write of one attempt. Only a copy that is out of date conflicts, and only an unanswered call or a Host that is gone fails. */
  method WriteOnce(store: HostStore, me: nat, cell: HostCell, ghost step: HostStep, after: Host)
    returns (outcome: UpdateOutcome, ghost written: bool)
    requires store.Valid() && store.IsSnapshot(cell) && IsStep(cell.host, step, after)
    modifies store`calls, store`current, store`version, store`issued, store`log
    ensures store.Valid() && store.IsSnapshot(cell) && old(store.log) <= store.log && store.calls == old(store.calls) + 1
    ensures AtMostOne(store.log, |old(store.log)|, me, step, written)
    ensures outcome.Updated? ==> written && outcome.version in store.issued && store.issued[outcome.version] == after
    ensures outcome.Conflict? ==> !written && cell.version != store.version
    ensures outcome.Conflict? ==> cell.version != old(store.version) || |store.log| > |old(store.log)|
    ensures outcome.Failed? <==> !store.answers(old(store.calls)) || store.current.None?
    ensures store.current.Some? ==> old(store.current).Some?
  {
    store.Interfere(me);
    ghost var before := store.log;
    outcome := store.Update(me, cell.version, cell.host, step, after);
    written := |store.log| > |before|;
    if written {
      assert IsOnlyWrite(store.log, |old(store.log)|, me, step, |before|);
    }
  }

  /** The write of one attempt and, after a conflict that is not the last one, the fresh read for the next attempt. */
  method TryUpdate(store: HostStore, me: nat, cell: HostCell, ghost step: HostStep, after: Host, last: bool)
    returns (attempt: Attempt, ghost written: bool)
    requires store.Valid() && store.IsSnapshot(cell) && IsStep(cell.host, step, after)
    modifies store`calls, store`current, store`version, store`issued, store`log, cell
    ensures store.Valid() && store.IsSnapshot(cell) && old(store.log) <= store.log
    ensures AtMostOne(store.log, |old(store.log)|, me, step, written)
    ensures attempt.Committed? ==> written && cell.host == after
    ensures attempt.Refreshed? || attempt.StillConflicting? ==> !written && Outdated(store, cell)
    ensures attempt.StillConflicting? ==> last && cell.version != store.version
    ensures attempt.Refreshed? ==> !last && cell.version == store.version
    ensures old(store.calls) < store.calls <= old(store.calls) + if last then 1 else 2
    ensures attempt.Broken? <==> !store.Answered(old(store.calls)) || store.current.None?
    ensures store.current.Some? ==> old(store.current).Some?
  {
    var outcome;
    outcome, written := WriteOnce(store, me, cell, step, after);
    match outcome {
      case Updated(version) =>
        cell.version, cell.host := version, after;
        return Committed, true;
      case Failed =>
        return Broken, written;
      case Conflict =>
        if last {
          return StillConflicting, false;
        }
    }
    ghost var middle := store.log;
    attempt := Refresh(store, me, cell);
    assert forall k | |old(store.log)| <= k < |middle| :: store.log[k] == middle[k];
  }

  /** A fresh copy of the Host for the next attempt. */
  method Refresh(store: HostStore, me: nat, cell: HostCell) returns (attempt: Attempt)
    requires store.Valid() && store.IsSnapshot(cell)
    modifies store`calls, store`current, store`version, store`issued, store`log, cell
    ensures store.Valid() && store.IsSnapshot(cell) && old(store.log) <= store.log && OthersOnly(store.log, |old(store.log)|, me)
    ensures store.calls == old(store.calls) + 1
    ensures attempt == if store.answers(old(store.calls)) && store.current.Some? then Refreshed else Broken
    ensures attempt.Refreshed? ==> cell.version == store.version
    ensures store.current.Some? ==> old(store.current).Some?
  {
    store.Interfere(me);
    var refreshed := store.Get();
    if refreshed.None? {
      return Broken;
    }
    cell.version, cell.host := refreshed.value.0, refreshed.value.1;
    return Refreshed;
  }

  lemma AtMostOneExtends(log: seq<Entry>, from: nat, middle: nat, me: nat, step: HostStep, written: bool)
    requires from <= middle <= |log| && OthersOnly(log[..middle], from, me)
    requires AtMostOne(log, middle, me, step, written)
    ensures AtMostOne(log, from, me, step, written)
  {
    assert forall k | from <= k < middle :: log[k] == log[..middle][k];
    if written {
      var w :| IsOnlyWrite(log, middle, me, step, w);
      assert IsOnlyWrite(log, from, me, step, w);
    }
  }

  /** The decision on this Host is to refuse the request with this error. */
  ghost predicate ClaimRefused(host: Host, req: ClaimRequest, error: HostError) {
    || DecideClaim(host.spec, req.consumer) == Failure(error)
    || (DecideClaim(host.spec, req.consumer) == Success(ClaimApply) && ValidateClaimCandidate(host, req) == Some(error))
  }

  /** The claims of `me` since `from` each bound an admitting Host to the consumer and changed nothing else of it. */
  ghost predicate ClaimsAsAdmitted(log: seq<Entry>, from: nat, me: nat, req: ClaimRequest) {
    forall w | from <= w < |log| && log[w].actor == me ::
      Admits(log[w].before, req) && log[w].after == log[w].before.(spec := log[w].before.spec.(consumerRef := Some(req.consumer)))
  }

  lemma WritesAreAdmitted(log: seq<Entry>, from: nat, me: nat, req: ClaimRequest, written: bool)
    requires IsLog(log) && AtMostOne(log, from, me, Claim(req), written)
    ensures ClaimsAsAdmitted(log, from, me, req)
  {
    forall w | from <= w < |log| && log[w].actor == me
      ensures Admits(log[w].before, req) && log[w].after == log[w].before.(spec := log[w].before.spec.(consumerRef := Some(req.consumer)))
    {
      assert Admissible(log[w]) && log[w].step == Claim(req);
      ClaimDecisionMeaning(log[w].before, req);
    }
  }

  /** One attempt of a claim. Unless it is `concluded`, the copy was out of date and has been read anew. */
  method ClaimOnce(store: HostStore, me: nat, cell: HostCell, req: ClaimRequest, last: bool)
    returns (concluded: bool, error: Option<HostError>, ghost written: bool)
    requires store.Valid() && store.IsSnapshot(cell)
    modifies store`calls, store`current, store`version, store`issued, store`log, cell
    ensures store.Valid() && store.IsSnapshot(cell) && old(store.log) <= store.log
    ensures AtMostOne(store.log, |old(store.log)|, me, Claim(req), written)
    ensures old(store.calls) <= store.calls <= old(store.calls) + if last then 1 else 2
    ensures FullyNamed(req.consumer) && old(cell.host.spec.consumerRef) == Some(req.consumer) ==>
      concluded && error.None? && cell.host == old(cell.host) && store.log == old(store.log) && store.calls == old(store.calls)
    ensures concluded && error.None? ==> cell.host.spec.consumerRef == Some(req.consumer) && FullyNamed(req.consumer)
    ensures concluded && error.None? && !written ==> old(cell.host.spec.consumerRef) == Some(req.consumer)
    ensures Admits(old(cell.host), req) && store.Answered(old(store.calls)) && store.current.Some? && !Outdated(store, cell) ==>
      concluded && error.None?
    ensures Admits(old(cell.host), req) && store.Answered(old(store.calls)) && store.current.Some? && !(concluded && error.None?) ==>
      Outdated(store, cell) && !written
    ensures !store.Answered(old(store.calls)) ==> concluded && error == Some(ApiFailure)
    ensures concluded && error == Some(ApiFailure) ==> !store.Answered(old(store.calls)) || store.current.None?
    ensures concluded && error.Some? && error.value != ApiFailure ==>
      !written && (ClaimRefused(cell.host, req, error.value)
                   || (error.value == ClaimConflict && last && cell.version != store.version && Outdated(store, cell)))
    ensures !concluded ==> !written && !last && cell.version == store.version && Outdated(store, cell)
  {
    ClaimDecisionMeaning(cell.host, req);
    written := false;
    var decision := DecideClaim(cell.host.spec, req.consumer);
    if decision.Failure? {
      return true, Some(decision.error), false;
    }
    if decision.value == ClaimNoop {
      return true, None, false;
    }
    var invalid := ValidateClaimCandidate(cell.host, req);
    if invalid.Some? {
      return true, invalid, false;
    }
    var claimed := ClaimedBy(cell.host, req.consumer);
    var progress;
    progress, written := TryUpdate(store, me, cell, Claim(req), claimed, last);
    match progress {
      case Committed => return true, None, true;
      case Broken => return true, Some(ApiFailure), written;
      case StillConflicting => return true, Some(ClaimConflict), false;
      case Refreshed => return false, None, false;
    }
  }

  /** However the other writers interleave, a claim commits at most one write; that write was decided on exactly the state it
      replaced, and after a success the caller's copy is a stored version bound to its consumer. A Host that is already
      bound to the consumer succeeds untouched, and one that admits the request and that nobody else writes is claimed. An error
      is a failed call, the decision on the caller's copy, or three conflicts in a row. */
  method ClaimHostWithRequest(store: HostStore, me: nat, cell: HostCell, req: ClaimRequest) returns (error: Option<HostError>, ghost written: bool)
    requires store.Valid() && store.IsSnapshot(cell)
    modifies store`calls, store`current, store`version, store`issued, store`log, cell
    ensures store.Valid() && store.IsSnapshot(cell) && old(store.log) <= store.log
    ensures var pinned := req.(expectedHostID := if req.expectedHostID == "" then old(cell.host.spec.hostID) else req.expectedHostID);
      && AtMostOne(store.log, |old(store.log)|, me, Claim(pinned), written)
      && ClaimsAsAdmitted(store.log, |old(store.log)|, me, pinned)
      && (&& old(cell.host.name) != "" && Admits(old(cell.host), pinned) && old(cell.version) == old(store.version)
          && store.Answered(old(store.calls)) && store.current.Some? && MineOnly(store.log, |old(store.log)|, me)
          ==> error.None? && written)
    ensures error.None? ==> cell.host.spec.consumerRef == Some(req.consumer) && FullyNamed(req.consumer)
    ensures old(cell.host.name) != "" && FullyNamed(req.consumer) && old(cell.host.spec.consumerRef) == Some(req.consumer) ==>
      error.None? && cell.host == old(cell.host) && store.log == old(store.log) && store.calls == old(store.calls)
    ensures error.Some? && written ==> error.value == ApiFailure
    ensures old(store.calls) <= store.calls <= old(store.calls) + 5
    ensures error == Some(ApiFailure) ==> !store.Answered(old(store.calls)) || store.current.None?
    ensures !store.Answered(old(store.calls)) ==> error == Some(ApiFailure)
    ensures error.Some? && error.value != ApiFailure ==>
      || (cell.host.name == "" && error.value == InvalidClaim)
      || ClaimRefused(cell.host, Pinned(old(cell.host), req), error.value)
      || (error.value == ClaimConflict && cell.version != store.version && |store.log| >= |old(store.log)| + 2)
  {
    written := false;
    if cell.host.name == "" {
      return Some(InvalidClaim), false;
    }
    var pinned := Pinned(cell.host, req);
    ghost var from := |store.log|;
    for attempt := 0 to CLAIM_ATTEMPTS
      invariant store.Valid() && store.IsSnapshot(cell) && old(store.log) <= store.log
      invariant OthersOnly(store.log, from, me) && store.Answered(old(store.calls))
      invariant attempt == 0 ==> cell.version == old(cell.version) && cell.host == old(cell.host)
      invariant attempt == 0 ==> store.calls == old(store.calls) && store.log == old(store.log) && store.version == old(store.version)
      invariant old(store.calls) <= store.calls <= old(store.calls) + 2 * attempt
      invariant attempt > 0 ==> cell.version == store.version && |store.log| >= from + attempt - 1
      invariant attempt > 0 ==> old(cell.version) != old(store.version) || |store.log| > from
      invariant attempt > 0 ==> !(FullyNamed(req.consumer) && old(cell.host.spec.consumerRef) == Some(req.consumer))
      invariant attempt < CLAIM_ATTEMPTS
    {
      ghost var middle := store.log;
      var concluded;
      concluded, error, written := ClaimOnce(store, me, cell, pinned, attempt == CLAIM_ATTEMPTS - 1);
      assert store.log[..|middle|] == middle;
      AtMostOneExtends(store.log, from, |middle|, me, Claim(pinned), written);
      WritesAreAdmitted(store.log, from, me, pinned, written);
      if concluded {
        return;
      }
    }
    return Some(ClaimConflict), false;
  }

  /** The retentions of `me` since `from` each released the consumer's own Host, put it on record, and changed nothing else of it. */
  ghost predicate RetainsItsOwn(log: seq<Entry>, from: nat, me: nat, consumer: ObjectReference, previous: PreviousConsumerRef) {
    forall w | from <= w < |log| && log[w].actor == me ::
      && FullyNamed(consumer) && previous.uid == consumer.uid && log[w].before.spec.consumerRef == Some(consumer)
      && log[w].after == log[w].before.(spec := log[w].before.spec.(consumerRef := None, previousConsumerRef := Some(previous)))
  }

  lemma RetentionsAreItsOwn(log: seq<Entry>, from: nat, me: nat, consumer: ObjectReference, previous: PreviousConsumerRef, written: bool)
    requires IsLog(log) && AtMostOne(log, from, me, Retain(consumer, previous), written)
    ensures RetainsItsOwn(log, from, me, consumer, previous)
  {
    forall w | from <= w < |log| && log[w].actor == me
      ensures FullyNamed(consumer) && previous.uid == consumer.uid && log[w].before.spec.consumerRef == Some(consumer)
      ensures log[w].after == log[w].before.(spec := log[w].before.spec.(consumerRef := None, previousConsumerRef := Some(previous)))
    {
      assert Admissible(log[w]) && log[w].step == Retain(consumer, previous);
    }
  }

  /** The consumer's own Host has been put on record already, and is bound to nobody. */
  ghost predicate OnRecord(spec: HostSpec, consumer: ObjectReference) {
    spec.consumerRef.None? && spec.previousConsumerRef.Some? && spec.previousConsumerRef.value.uid == consumer.uid
  }

  /** One attempt of a retention. Unless it is `concluded`, the copy was out of date and has been read anew. */
  method RetainOnce(store: HostStore, me: nat, cell: HostCell, consumer: ObjectReference, previous: PreviousConsumerRef, last: bool)
    returns (concluded: bool, error: Option<HostError>, ghost written: bool)
    requires store.Valid() && store.IsSnapshot(cell)
    modifies store`calls, store`current, store`version, store`issued, store`log, cell
    ensures store.Valid() && store.IsSnapshot(cell) && old(store.log) <= store.log
    ensures AtMostOne(store.log, |old(store.log)|, me, Retain(consumer, previous), written)
    ensures old(store.calls) <= store.calls <= old(store.calls) + if last then 1 else 2
    ensures FullyNamed(consumer) && previous.uid == consumer.uid && OnRecord(old(cell.host.spec), consumer) ==>
      concluded && error.None? && cell.host == old(cell.host) && store.log == old(store.log) && store.calls == old(store.calls)
    ensures concluded && error.None? ==> OnRecord(cell.host.spec, consumer) && FullyNamed(consumer) && previous.uid == consumer.uid
    ensures concluded && error.None? && !written ==> OnRecord(old(cell.host.spec), consumer)
    ensures (&& FullyNamed(consumer) && previous.uid == consumer.uid && old(cell.host.spec.consumerRef) == Some(consumer)
             && store.Answered(old(store.calls)) && store.current.Some? && !(concluded && error.None?)) ==>
      Outdated(store, cell) && !written
    ensures !store.Answered(old(store.calls)) ==> concluded && error == Some(ApiFailure)
    ensures concluded && error == Some(ApiFailure) ==> !store.Answered(old(store.calls)) || store.current.None?
    ensures concluded && error.Some? && error.value != ApiFailure ==>
      !written && (DecideRetention(cell.host.spec, consumer, previous) == Failure(error.value)
                   || (error.value == ClaimConflict && last && cell.version != store.version && Outdated(store, cell)))
    ensures !concluded ==> !written && !last && cell.version == store.version && Outdated(store, cell)
  {
    RetentionDecisionMeaning(cell.host.spec, consumer, previous);
    written := false;
    var decision := DecideRetention(cell.host.spec, consumer, previous);
    if decision.Failure? {
      return true, Some(decision.error), false;
    }
    if decision.value == ClaimNoop {
      return true, None, false;
    }
    var retained := RetainedFrom(cell.host, previous);
    var progress;
    progress, written := TryUpdate(store, me, cell, Retain(consumer, previous), retained, last);
    match progress {
      case Committed => return true, None, true;
      case Broken => return true, Some(ApiFailure), written;
      case StillConflicting => return true, Some(ClaimConflict), false;
      case Refreshed => return false, None, false;
    }
  }

  /** The same for a retention: at most one write, of the consumer's own Host as it was when replaced, leaving it unbound with this
      consumer on record. A Host on which that has been done already succeeds untouched, and one that is bound to the consumer
      and that nobody else writes is retained. */
  method RetainHost(store: HostStore, me: nat, cell: HostCell, consumer: ObjectReference, previous: PreviousConsumerRef)
    returns (error: Option<HostError>, ghost written: bool)
    requires store.Valid() && store.IsSnapshot(cell)
    modifies store`calls, store`current, store`version, store`issued, store`log, cell
    ensures store.Valid() && store.IsSnapshot(cell) && old(store.log) <= store.log
    ensures AtMostOne(store.log, |old(store.log)|, me, Retain(consumer, previous), written)
    ensures RetainsItsOwn(store.log, |old(store.log)|, me, consumer, previous)
    ensures old(cell.host.name) != "" && FullyNamed(consumer) && previous.uid == consumer.uid ==>
      && (OnRecord(old(cell.host.spec), consumer) ==>
            error.None? && cell.host == old(cell.host) && store.log == old(store.log) && store.calls == old(store.calls))
      && (&& old(cell.host.spec.consumerRef) == Some(consumer) && old(cell.version) == old(store.version)
          && store.Answered(old(store.calls)) && store.current.Some? && MineOnly(store.log, |old(store.log)|, me)
          ==> error.None? && written)
    ensures error.None? ==>
      && cell.host.spec.consumerRef == None
      && cell.host.spec.previousConsumerRef.Some? && cell.host.spec.previousConsumerRef.value.uid == consumer.uid
      && FullyNamed(consumer) && previous.uid == consumer.uid
    ensures error.Some? && written ==> error.value == ApiFailure
    ensures old(store.calls) <= store.calls <= old(store.calls) + 5
    ensures error == Some(ApiFailure) ==> !store.Answered(old(store.calls)) || store.current.None?
    ensures !store.Answered(old(store.calls)) ==> error == Some(ApiFailure)
    ensures error.Some? && error.value != ApiFailure ==>
      || (cell.host.name == "" && error.value == InvalidRetention)
      || DecideRetention(cell.host.spec, consumer, previous) == Failure(error.value)
      || (error.value == ClaimConflict && cell.version != store.version && |store.log| >= |old(store.log)| + 2)
  {
    written := false;
    if cell.host.name == "" {
      return Some(InvalidRetention), false;
    }
    ghost var from := |store.log|;
    for attempt := 0 to CLAIM_ATTEMPTS
      invariant store.Valid() && store.IsSnapshot(cell) && old(store.log) <= store.log
      invariant OthersOnly(store.log, from, me) && store.Answered(old(store.calls))
      invariant attempt == 0 ==> cell.version == old(cell.version) && cell.host == old(cell.host)
      invariant attempt == 0 ==> store.calls == old(store.calls) && store.log == old(store.log) && store.version == old(store.version)
      invariant old(store.calls) <= store.calls <= old(store.calls) + 2 * attempt
      invariant attempt > 0 ==> cell.version == store.version && |store.log| >= from + attempt - 1
      invariant attempt > 0 ==> old(cell.version) != old(store.version) || |store.log| > from
      invariant attempt > 0 ==> !(FullyNamed(consumer) && previous.uid == consumer.uid && OnRecord(old(cell.host.spec), consumer))
      invariant attempt < CLAIM_ATTEMPTS
    {
      ghost var middle := store.log;
      var concluded;
      concluded, error, written := RetainOnce(store, me, cell, consumer, previous, attempt == CLAIM_ATTEMPTS - 1);
      assert store.log[..|middle|] == middle;
      AtMostOneExtends(store.log, from, |middle|, me, Retain(consumer, previous), written);
      RetentionsAreItsOwn(store.log, from, me, consumer, previous, written);
      if concluded {
        return;
      }
    }
    return Some(ClaimConflict), false;
  }

  // ----- the log of any number of reconcilers is a Host history -----

  ghost function Hosts(log: seq<Entry>): (hosts: seq<Host>)
    requires log != []
    ensures |hosts| == |log| + 1
  {
    [log[0].before] + seq(|log|, k requires 0 <= k < |log| => log[k].after)
  }

  ghost function Steps(log: seq<Entry>): (steps: seq<HostStep>)
    ensures |steps| == |log|
  {
    seq(|log|, k requires 0 <= k < |log| => log[k].step)
  }

  /** Everything ever committed is one history of atomic guarded steps, so all laws of Host histories hold of it. */
  lemma LogIsAHistory(store: HostStore)
    requires store.Valid() && store.log != []
    ensures IsHistory(Hosts(store.log), Steps(store.log))
    ensures store.current.Some? ==> Hosts(store.log)[|store.log|] == store.current.value
  {
    var log := store.log;
    forall k | 0 <= k < |log|
      ensures StepAt(Hosts(log), Steps(log), k)
    {
      if k > 0 {
        assert Chained(log, k);
      }
    }
  }
}
