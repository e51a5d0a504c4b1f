/** Choosing a fresh Host by rendezvous hashing (usecase/host/selection.go). */
module HostSelection {
  import opened FiniteSets
  import opened HostClaims
  import opened Names
  import opened Wrappers

  /** Who selects and for what; `score` is the hash of the Machine UID and a Host ID, 32 bytes compared as a number. */
  datatype Selection = Selection(selector: Option<HostSelector>, failureDomain: string, machineUID: string, score: (string, string) -> nat)
  {
    predicate Eligible(host: Host) {
      Classify(host.spec) == Available && host.spec.hostID != "" && MatchesForFailureDomain(host, selector, failureDomain)
    }

    /** The sort order: the greater score first, then the names; names alone without a Machine UID. */
    predicate Outranks(left: Host, right: Host) {
      if machineUID == "" then Before(left.name, right.name)
      else
        var l, r := score(machineUID, left.spec.hostID), score(machineUID, right.spec.hostID);
        if l != r then l > r else Before(left.name, right.name)
    }

    /** A Host that has an ID, has never had a consumer, and is where the selection wants it. */
    ghost predicate Suits(host: Host) {
      && host.spec.consumerRef.None? && host.spec.previousConsumerRef.None? && host.spec.hostID != ""
      && (failureDomain == "" || host.spec.failureDomain == failureDomain)
      && (selector.Some? ==>
            && (selector.value.architecture == "" || selector.value.architecture == host.spec.architecture)
            && selector.value.matchesLabels.Some? && selector.value.matchesLabels.value(host.labels))
    }

    /** The winner suits, and no other suitable Host has a greater score, or with the same score (or without a Machine UID) an
        earlier name. */
    ghost predicate IsWinner(hosts: set<Host>, winner: Host) {
      && winner in hosts && Suits(winner)
      && forall host | host in hosts && Suits(host) && host != winner ::
           if machineUID == "" then !Before(host.name, winner.name)
           else
             var score1, score2 := score(machineUID, winner.spec.hostID), score(machineUID, host.spec.hostID);
             score1 > score2 || (score1 == score2 && !Before(host.name, winner.name))
    }
  }

  /** The API server keeps names unique within the namespace. */
  ghost predicate DistinctNames(hosts: set<Host>) {
    forall a, b | a in hosts && b in hosts && a.name == b.name :: a == b
  }

  lemma EligibleIffSuits(s: Selection, host: Host)
    ensures s.Eligible(host) <==> s.Suits(host)
  {
    ClassifyMeaning(host.spec);
  }

  lemma OutranksIsTotal(s: Selection, a: Host, b: Host)
    ensures s.Outranks(a, b) && s.Outranks(b, a) ==> false
    ensures a.name != b.name ==> s.Outranks(a, b) || s.Outranks(b, a)
  {
    BeforeIsTotal(a.name, b.name);
  }

  lemma OutranksIsTransitive(s: Selection, a: Host, b: Host, c: Host)
    requires s.Outranks(a, b) && s.Outranks(b, c)
    ensures s.Outranks(a, c)
  {
    if Before(a.name, b.name) && Before(b.name, c.name) {
      BeforeIsTransitive(a.name, b.name, c.name);
    }
  }

  /** Only the head of the sorted candidates is used. */
  method SelectFreshForFailureDomainWithRendezvous(s: Selection, hosts: seq<Host>) returns (selected: Option<Host>)
    ensures selected.None? <==> forall host | host in hosts :: !s.Suits(host)
    ensures selected.Some? ==> s.IsWinner(ToSet(hosts), selected.value)
  {
    forall host
      ensures s.Eligible(host) <==> s.Suits(host)
    {
      EligibleIffSuits(s, host);
    }
    var candidates: seq<Host> := [];
    for i := 0 to |hosts|
      invariant forall host :: host in candidates <==> host in hosts[..i] && s.Eligible(host)
    {
      if s.Eligible(hosts[i]) {
        candidates := candidates + [hosts[i]];
      }
    }
    assert hosts[..|hosts|] == hosts;
    if candidates == [] {
      return None;
    }
    var head := candidates[0];
    OutranksIsTotal(s, head, head);
    for i := 1 to |candidates|
      invariant head in candidates
      invariant forall k | 0 <= k < i :: !s.Outranks(candidates[k], head)
    {
      if s.Outranks(candidates[i], head) {
        NewHeadIsAhead(s, candidates[..i], head, candidates[i]);
        head := candidates[i];
      }
    }
    return Some(head);
  }

  lemma NewHeadIsAhead(s: Selection, seen: seq<Host>, head: Host, next: Host)
    requires s.Outranks(next, head) && forall k | 0 <= k < |seen| :: !s.Outranks(seen[k], head)
    ensures !s.Outranks(next, next) && forall k | 0 <= k < |seen| :: !s.Outranks(seen[k], next)
  {
    OutranksIsTotal(s, next, next);
    forall k | 0 <= k < |seen|
      ensures !s.Outranks(seen[k], next)
    {
      if s.Outranks(seen[k], next) {
        OutranksIsTransitive(s, seen[k], next, head);
      }
    }
  }

  /** The result depends on which Hosts there are, not on the order they are listed in. */
  lemma WinnerIsUnique(s: Selection, hosts: set<Host>, a: Host, b: Host)
    requires DistinctNames(hosts) && s.IsWinner(hosts, a) && s.IsWinner(hosts, b)
    ensures a == b
  {
    OutranksIsTotal(s, a, b);
  }

  /** Removing any Host but the winner leaves the winner; adding one keeps the winner or selects the added Host. */
  lemma SelectionIsStable(s: Selection, hosts: set<Host>, winner: Host, changed: Host, next: Host)
    requires DistinctNames(hosts + {changed}) && s.IsWinner(hosts, winner)
    ensures changed != winner ==> s.IsWinner(hosts - {changed}, winner)
    ensures s.IsWinner(hosts + {changed}, next) ==> next == winner || next == changed
  {
    if s.IsWinner(hosts + {changed}, next) && next != changed {
      assert s.IsWinner(hosts, next);
      WinnerIsUnique(s, hosts, next, winner);
    }
  }

  /** The Host selected is one that the claim it is selected for accepts. */
  lemma SelectedHostIsClaimable(s: Selection, hosts: set<Host>, winner: Host, consumer: ObjectReference)
    requires s.IsWinner(hosts, winner) && ValidConsumerReference(consumer)
    ensures var req := ClaimRequest(consumer, winner.spec.hostID, s.selector, s.failureDomain, ClaimFreshAutomatic);
            ValidateClaimCandidate(winner, req) == None && DecideClaim(winner.spec, consumer) == Success(ClaimApply)
  {
  }
}
