/** The staged CA rotation as a state machine over real node configurations.
    Nothing records how far the rotation has come: each pass observes every node, takes the smallest stage it saw
    and stages the next trust configuration on the nodes at that stage. A staged configuration takes effect at a
    reboot that may come at any later moment, observations go stale while the pass continues, a pass may stop
    after any remote call, and Machines may start deleting at any time (controller/tartcontrolplane/carotation.go). */
module RotationProtocol {
  import opened Wrappers
  import opened Certificates
  import opened TrustStage
  import opened TalosConfig
  import opened TrustLaws

  /** The two generations a rotation moves between. */
  datatype Rotation = Rotation(active: CertBundle, pending: CertBundle) {
    ghost predicate Valid() {
      Distinct(active, pending)
    }

    function Stage(config: MachineConfig): Stage {
      StageOf(config, active, pending)
    }
  }

  datatype Node = Node(active: MachineConfig, staged: Option<MachineConfig>, deleting: bool)

  /** What one pass remembers about one node. */
  datatype Observation = Observation(node: nat, usedPending: bool, stage: Stage)

  /** Where the controller is inside a pass. `listed` is the Machine list the pass started from: the nodes that were
      not being deleted at that moment, though deletion may have started since. */
  datatype Phase =
    | Idle
    | Observing(listed: set<nat>, seen: seq<Observation>, next: nat)
    | Advancing(minimum: Stage, seen: seq<Observation>, next: nat)
    | Holding(minimum: Stage, seen: seq<Observation>, next: nat, config: MachineConfig)
    | Finished(minimum: Stage)
    | Promoting

  predicate BetweenPasses(phase: Phase) {
    phase.Idle? || phase.Finished? || phase.Promoting?
  }

  datatype State = State(nodes: seq<Node>, phase: Phase)

  datatype Action =
    | TakeEffect(i: nat)
    | StartDeleting(i: nat)
    | Stop
    | Begin
    | SkipDeleting
    | Observe
    | ChooseMinimum(minimum: Stage)
    | SkipAhead
    | Fetch
    | Apply(updated: MachineConfig)
    | Finish

  /** The stage a node is moved to from `stage`. */
  function NextStage(stage: Stage): Stage {
    match stage
    case Stable => DualTrust
    case DualTrust => Cutover
    case Cutover => Rotated
    case _ => stage
  }

  /** The Machines a pass lists. */
  function NotDeleting(nodes: seq<Node>): set<nat> {
    set i: nat | i < |nodes| && !nodes[i].deleting
  }

  ghost predicate IsMinimum(seen: seq<Observation>, minimum: Stage) {
    && (exists k :: 0 <= k < |seen| && seen[k].stage == minimum)
    && (forall k | 0 <= k < |seen| :: minimum.Ord() <= seen[k].stage.Ord())
  }

  /** The configuration `updated` is what the pass computes from `config` for nodes at `minimum`. */
  ghost predicate IsNextConfiguration(r: Rotation, config: MachineConfig, updated: MachineConfig, minimum: Stage)
    requires r.Valid()
  {
    IsTrustUpdate(config, updated, IssuingFor(NextStage(minimum), r.active, r.pending), ExtraFor(NextStage(minimum), r.active, r.pending))
  }

  ghost predicate Step(r: Rotation, s: State, action: Action, t: State)
    requires r.Valid()
  {
    match action
    // The environment: reboots and deletions.
    case TakeEffect(i) =>
      && i < |s.nodes| && s.nodes[i].staged.Some?
      && t == s.(nodes := s.nodes[i := s.nodes[i].(active := s.nodes[i].staged.value, staged := None)])
    case StartDeleting(i) =>
      i < |s.nodes| && t == s.(nodes := s.nodes[i := s.nodes[i].(deleting := true)])
    // An error return or a crash of the controller.
    case Stop => t == s.(phase := Idle)
    case Begin =>
      && BetweenPasses(s.phase)
      && t == s.(phase := Observing(NotDeleting(s.nodes), [], 0))
    case SkipDeleting =>
      && s.phase.Observing? && s.phase.next < |s.nodes| && s.phase.next !in s.phase.listed
      && t == s.(phase := Observing(s.phase.listed, s.phase.seen, s.phase.next + 1))
    case Observe =>
      && s.phase.Observing? && s.phase.next < |s.nodes| && s.phase.next in s.phase.listed
      && var config := s.nodes[s.phase.next].active;
      && var dial := DialForRotation(config, r.active, r.pending);
      && dial.Some?
      && r.Stage(config) != Unknown
      && var observation := Observation(s.phase.next, dial.value, r.Stage(config));
      && t == s.(phase := Observing(s.phase.listed, s.phase.seen + [observation], s.phase.next + 1))
    case ChooseMinimum(minimum) =>
      && s.phase.Observing? && s.phase.next == |s.nodes| && |s.phase.seen| > 0
      && IsMinimum(s.phase.seen, minimum)
      && t == s.(phase := if minimum == Rotated then Promoting else Advancing(minimum, s.phase.seen, 0))
    case SkipAhead =>
      && s.phase.Advancing? && s.phase.next < |s.phase.seen| && s.phase.seen[s.phase.next].stage != s.phase.minimum
      && t == s.(phase := Advancing(s.phase.minimum, s.phase.seen, s.phase.next + 1))
    case Fetch =>
      && s.phase.Advancing? && s.phase.next < |s.phase.seen| && s.phase.seen[s.phase.next].stage == s.phase.minimum
      && var observation := s.phase.seen[s.phase.next];
      && observation.node < |s.nodes|
      && var config := s.nodes[observation.node].active;
      && Authenticates(if observation.usedPending then r.pending else r.active, config)
      && t == s.(phase := Holding(s.phase.minimum, s.phase.seen, s.phase.next, config))
    case Apply(updated) =>
      && s.phase.Holding? && s.phase.next < |s.phase.seen|
      && var node := s.phase.seen[s.phase.next].node;
      && node < |s.nodes|
      && (s.nodes[node].deleting || IsNextConfiguration(r, s.phase.config, updated, s.phase.minimum))
      && t == State(s.nodes[node := s.nodes[node].(staged := Some(updated))],
                    Advancing(s.phase.minimum, s.phase.seen, s.phase.next + 1))
    case Finish =>
      && s.phase.Advancing? && s.phase.next == |s.phase.seen|
      && t == s.(phase := Finished(s.phase.minimum))
  }

  ghost predicate Next(r: Rotation, s: State, t: State)
    requires r.Valid()
  {
    exists action :: Step(r, s, action, t)
  }

  /** Every pair of neighbours in `run` is one step of the machine. */
  ghost predicate IsRun(r: Rotation, run: seq<State>)
    requires r.Valid()
  {
    |run| > 0 && forall k | 0 < k < |run| :: StepAt(r, run, k)
  }

  ghost predicate StepAt(r: Rotation, run: seq<State>, k: int)
    requires r.Valid() && 0 < k < |run|
  {
    Next(r, run[k - 1], run[k])
  }

  /** A rotation starts with every remaining node Stable; a leftover staged configuration may only repeat that trust. */
  ghost predicate Initial(r: Rotation, s: State)
    requires r.Valid()
  {
    && s.phase.Idle?
    && forall i | 0 <= i < |s.nodes| ::
         s.nodes[i].deleting || (r.Stage(s.nodes[i].active) == Stable && (s.nodes[i].staged.Some? ==> r.Stage(s.nodes[i].staged.value) == Stable))
  }

  // ----- the invariant: all remaining nodes are within one stage of a common level -----

  ghost predicate NodeWithin(r: Rotation, node: Node, level: nat) {
    && r.Stage(node.active) != Unknown
    && level <= r.Stage(node.active).Ord() <= level + 1
    && (node.staged.Some? ==>
          && r.Stage(node.staged.value) != Unknown
          && r.Stage(node.active).Ord() <= r.Stage(node.staged.value).Ord() <= level + 1)
  }

  ghost predicate NodesWithin(r: Rotation, nodes: seq<Node>, level: nat) {
    forall i | 0 <= i < |nodes| && !nodes[i].deleting :: NodeWithin(r, nodes[i], level)
  }

  /** A remembered stage may lag behind its node, never run ahead of it. */
  ghost predicate SeenWithin(r: Rotation, nodes: seq<Node>, seen: seq<Observation>, level: nat) {
    forall k | 0 <= k < |seen| :: ObservationWithin(r, nodes, seen[k], level)
  }

  ghost predicate ObservationWithin(r: Rotation, nodes: seq<Node>, o: Observation, level: nat) {
    && o.node < |nodes|
    && o.stage != Unknown
    && level <= o.stage.Ord() <= level + 1
    && (nodes[o.node].deleting || o.stage.Ord() <= r.Stage(nodes[o.node].active).Ord())
  }

  /** Every remaining node among the first `count` has been observed. */
  ghost predicate Covered(nodes: seq<Node>, seen: seq<Observation>, count: nat) {
    forall i | 0 <= i < count && i < |nodes| && !nodes[i].deleting :: SeenAt(seen, i)
  }

  ghost predicate SeenAt(seen: seq<Observation>, i: nat) {
    exists k :: 0 <= k < |seen| && seen[k].node == i
  }

  /** The facts a pass that works on `minimum` relies on. */
  ghost predicate PassWithin(r: Rotation, nodes: seq<Node>, minimum: Stage, seen: seq<Observation>, level: nat) {
    && minimum.Ord() == level && level < 3
    && IsMinimum(seen, minimum)
    && SeenWithin(r, nodes, seen, level)
    && Covered(nodes, seen, |nodes|)
  }

  ghost predicate PhaseWithin(r: Rotation, s: State, level: nat) {
    match s.phase
    case Observing(listed, seen, next) =>
      && next <= |s.nodes| && SeenWithin(r, s.nodes, seen, level) && Covered(s.nodes, seen, next)
      && NotDeleting(s.nodes) <= listed
      && (forall i | i in listed && i < |s.nodes| :: NodeWithin(r, s.nodes[i], level))
    case Advancing(minimum, seen, next) => next <= |seen| && PassWithin(r, s.nodes, minimum, seen, level)
    case Holding(minimum, seen, next, config) =>
      && next < |seen| && seen[next].stage == minimum && PassWithin(r, s.nodes, minimum, seen, level)
      && seen[next].node < |s.nodes| && (s.nodes[seen[next].node].deleting || r.Stage(config) != Unknown)
    case Finished(minimum) => minimum.Ord() < 3
    case Promoting => level == 3
    case Idle => true
  }

  ghost predicate WithinLevel(r: Rotation, s: State, level: nat) {
    && level <= 3
    && NodesWithin(r, s.nodes, level)
    && PhaseWithin(r, s, level)
  }

  lemma InitialWithinLevel(r: Rotation, s: State)
    requires r.Valid() && Initial(r, s)
    ensures WithinLevel(r, s, 0)
  {
  }

  ghost predicate Tracked(s: State, i: nat) {
    i < |s.nodes| && (!s.nodes[i].deleting || (s.phase.Observing? && i in s.phase.listed))
  }

  /** A node that only moved forward, or started deleting, keeps every remembered observation valid. */
  lemma NodeChangeKeepsPhase(r: Rotation, s: State, i: nat, node: Node, level: nat)
    requires WithinLevel(r, s, level) && i < |s.nodes|
    requires Tracked(s, i) ==> NodeWithin(r, node, level)
    requires s.nodes[i].deleting ==> node.deleting
    requires node.deleting || r.Stage(s.nodes[i].active).Ord() <= r.Stage(node.active).Ord()
    ensures WithinLevel(r, s.(nodes := s.nodes[i := node]), level)
  {
    var t := s.(nodes := s.nodes[i := node]);
    assert NodesWithin(r, t.nodes, level);
    forall seen | SeenWithin(r, s.nodes, seen, level)
      ensures SeenWithin(r, t.nodes, seen, level)
    {
      forall k | 0 <= k < |seen|
        ensures ObservationWithin(r, t.nodes, seen[k], level)
      {
        assert ObservationWithin(r, s.nodes, seen[k], level);
      }
    }
    forall seen, count: nat | Covered(s.nodes, seen, count)
      ensures Covered(t.nodes, seen, count)
    {
    }
    assert NotDeleting(t.nodes) <= NotDeleting(s.nodes);
  }

  lemma ObserveKeepsPhase(r: Rotation, s: State, t: State, level: nat)
    requires r.Valid() && WithinLevel(r, s, level) && Step(r, s, Action.Observe, t)
    ensures WithinLevel(r, t, level)
  {
    var i := s.phase.next;
    var o := t.phase.seen[|s.phase.seen|];
    assert NodeWithin(r, s.nodes[i], level);
    assert ObservationWithin(r, t.nodes, o, level);
    assert t.phase.seen[|s.phase.seen|].node == i;
    forall j | 0 <= j < i + 1 && !t.nodes[j].deleting
      ensures SeenAt(t.phase.seen, j)
    {
      if j < i {
        assert SeenAt(s.phase.seen, j);
        var k :| 0 <= k < |s.phase.seen| && s.phase.seen[k].node == j;
        assert t.phase.seen[k].node == j;
      }
    }
  }

  /** When every node has been seen, the smallest stage seen is a level for the whole set. */
  lemma MinimumIsALevel(r: Rotation, s: State, minimum: Stage, level: nat)
    requires r.Valid() && WithinLevel(r, s, level)
    requires s.phase.Observing? && s.phase.next == |s.nodes| && IsMinimum(s.phase.seen, minimum)
    ensures minimum.Ord() == level || (minimum.Ord() == level + 1 && minimum != Unknown)
    ensures NodesWithin(r, s.nodes, minimum.Ord())
    ensures SeenWithin(r, s.nodes, s.phase.seen, minimum.Ord())
  {
    var seen := s.phase.seen;
    var w :| 0 <= w < |seen| && seen[w].stage == minimum;
    assert ObservationWithin(r, s.nodes, seen[w], level);
    if minimum.Ord() == level + 1 {
      forall k | 0 <= k < |seen|
        ensures ObservationWithin(r, s.nodes, seen[k], level + 1)
      {
        assert ObservationWithin(r, s.nodes, seen[k], level);
      }
      forall i | 0 <= i < |s.nodes| && !s.nodes[i].deleting
        ensures NodeWithin(r, s.nodes[i], level + 1)
      {
        assert NodeWithin(r, s.nodes[i], level);
        assert SeenAt(seen, i);
        var k :| 0 <= k < |seen| && seen[k].node == i;
        assert ObservationWithin(r, s.nodes, seen[k], level + 1);
      }
    }
  }

  lemma ChosenMinimumIsALevel(r: Rotation, s: State, minimum: Stage, t: State, level: nat)
    requires r.Valid() && WithinLevel(r, s, level) && Step(r, s, ChooseMinimum(minimum), t)
    ensures level <= minimum.Ord() && WithinLevel(r, t, minimum.Ord())
  {
    MinimumIsALevel(r, s, minimum, level);
  }

  lemma ApplyKeepsPhase(r: Rotation, s: State, updated: MachineConfig, t: State, level: nat)
    requires r.Valid() && WithinLevel(r, s, level) && Step(r, s, Apply(updated), t)
    ensures WithinLevel(r, t, level)
  {
    var i := s.phase.seen[s.phase.next].node;
    if !s.nodes[i].deleting {
      SetThenObserve(s.phase.config, updated, r.active, r.pending, NextStage(s.phase.minimum));
    }
    NodeChangeKeepsPhase(r, s, i, t.nodes[i], level);
  }

  /** Every step keeps the remaining nodes within one stage of a level, and the level never falls. */
  lemma StepKeepsWithinLevel(r: Rotation, s: State, action: Action, t: State, level: nat) returns (level': nat)
    requires r.Valid() && WithinLevel(r, s, level) && Step(r, s, action, t)
    ensures level <= level' && WithinLevel(r, t, level')
  {
    level' := level;
    match action
    case TakeEffect(i) =>
      assert Tracked(s, i) ==> NodeWithin(r, s.nodes[i], level);
      NodeChangeKeepsPhase(r, s, i, t.nodes[i], level);
    case StartDeleting(i) =>
      assert Tracked(s, i) ==> NodeWithin(r, s.nodes[i], level);
      NodeChangeKeepsPhase(r, s, i, t.nodes[i], level);
    case Observe =>
      ObserveKeepsPhase(r, s, t, level);
    case ChooseMinimum(minimum) =>
      ChosenMinimumIsALevel(r, s, minimum, t, level);
      level' := minimum.Ord();
    case Apply(updated) =>
      ApplyKeepsPhase(r, s, updated, t, level);
    case Fetch =>
      var i := s.phase.seen[s.phase.next].node;
      assert s.nodes[i].deleting || NodeWithin(r, s.nodes[i], level);
    case _ =>
  }

  // ----- safety of whole runs -----

  lemma PrefixIsRun(r: Rotation, run: seq<State>, n: nat)
    requires r.Valid() && IsRun(r, run) && 0 < n <= |run|
    ensures IsRun(r, run[..n])
  {
    forall k | 0 < k < n
      ensures StepAt(r, run[..n], k)
    {
      assert StepAt(r, run, k);
    }
  }

  lemma {:induction false} RunStaysWithinLevel(r: Rotation, run: seq<State>) returns (level: nat)
    requires r.Valid() && IsRun(r, run) && Initial(r, run[0])
    ensures WithinLevel(r, run[|run| - 1], level)
  {
    if |run| == 1 {
      level := 0;
      InitialWithinLevel(r, run[0]);
    } else {
      var prefix := run[..|run| - 1];
      PrefixIsRun(r, run, |run| - 1);
      var before := RunStaysWithinLevel(r, prefix);
      var s, t := prefix[|prefix| - 1], run[|run| - 1];
      assert StepAt(r, run, |run| - 1);
      var action :| Step(r, s, action, t);
      level := StepKeepsWithinLevel(r, s, action, t, before);
    }
  }

  ghost predicate Remaining(s: State, i: nat) {
    i < |s.nodes| && !s.nodes[i].deleting
  }

  /** Any two remaining nodes are at the same or neighbouring stages, accept each other's certificates,
      and every remaining node can be logged in to with the bundle the dial picks. */
  ghost predicate Safe(r: Rotation, s: State)
    requires r.Valid()
  {
    && (forall i: nat, j: nat | Remaining(s, i) && Remaining(s, j) ::
          && Adjacent(r.Stage(s.nodes[i].active), r.Stage(s.nodes[j].active))
          && AcceptsPeer(s.nodes[i].active, s.nodes[j].active))
    && (forall i: nat | Remaining(s, i) ::
          && DialForRotation(s.nodes[i].active, r.active, r.pending) == Some(IssuesPending(r.Stage(s.nodes[i].active)))
          && (Authenticates(r.active, s.nodes[i].active) <==> !Authenticates(r.pending, s.nodes[i].active)))
  }

  lemma WithinLevelIsSafe(r: Rotation, s: State, level: nat)
    requires r.Valid() && WithinLevel(r, s, level)
    ensures Safe(r, s)
  {
    forall i: nat, j: nat | Remaining(s, i) && Remaining(s, j)
      ensures Adjacent(r.Stage(s.nodes[i].active), r.Stage(s.nodes[j].active)) && AcceptsPeer(s.nodes[i].active, s.nodes[j].active)
    {
      assert NodeWithin(r, s.nodes[i], level) && NodeWithin(r, s.nodes[j], level);
      MutualTrustIffAdjacent(s.nodes[i].active, s.nodes[j].active, r.active, r.pending);
    }
    forall i: nat | Remaining(s, i)
      ensures DialForRotation(s.nodes[i].active, r.active, r.pending) == Some(IssuesPending(r.Stage(s.nodes[i].active)))
      ensures Authenticates(r.active, s.nodes[i].active) <==> !Authenticates(r.pending, s.nodes[i].active)
    {
      assert NodeWithin(r, s.nodes[i], level);
      ExactlyOneBundleAuthenticates(s.nodes[i].active, r.active, r.pending);
    }
  }

  lemma ReachedIsSafe(r: Rotation, run: seq<State>)
    requires r.Valid() && IsRun(r, run) && Initial(r, run[0])
    ensures Safe(r, run[|run| - 1])
    ensures run[|run| - 1].phase.Promoting? ==> AllAtLeast(r, run[|run| - 1], Rotated)
  {
    var s := run[|run| - 1];
    var level := RunStaysWithinLevel(r, run);
    WithinLevelIsSafe(r, s, level);
    if s.phase.Promoting? {
      assert forall i: nat | Remaining(s, i) :: NodeWithin(r, s.nodes[i], 3);
    }
  }

  /** Safety of every state of every run; and promotion is reached only when every remaining node is Rotated. */
  lemma RunsAreSafe(r: Rotation, run: seq<State>)
    requires r.Valid() && IsRun(r, run) && Initial(r, run[0])
    ensures forall k | 0 <= k < |run| :: Safe(r, run[k])
    ensures forall k | 0 <= k < |run| && run[k].phase.Promoting? :: AllAtLeast(r, run[k], Rotated)
  {
    forall k | 0 <= k < |run|
      ensures Safe(r, run[k])
      ensures run[k].phase.Promoting? ==> AllAtLeast(r, run[k], Rotated)
    {
      PrefixIsRun(r, run, k + 1);
      ReachedIsSafe(r, run[..k + 1]);
    }
  }

  /** A promoted state is a start for the rotation after it, so RunsAreSafe applies to that one too, and so on. */
  lemma PromotionStartsTheNextRotation(r: Rotation, run: seq<State>, next: CertBundle)
    requires r.Valid() && IsRun(r, run) && Initial(r, run[0]) && run[|run| - 1].phase.Promoting?
    requires Distinct(r.pending, next)
    ensures Initial(Rotation(r.pending, next), State(run[|run| - 1].nodes, Idle))
  {
    var s := run[|run| - 1];
    var level := RunStaysWithinLevel(r, run);
    forall i: nat | Remaining(s, i)
      ensures StageOf(s.nodes[i].active, r.pending, next) == Stable
      ensures s.nodes[i].staged.Some? ==> StageOf(s.nodes[i].staged.value, r.pending, next) == Stable
    {
      assert NodeWithin(r, s.nodes[i], 3);
      RotatedIsStableForTheNextRotation(s.nodes[i].active, r.active, r.pending, next);
      if s.nodes[i].staged.Some? {
        RotatedIsStableForTheNextRotation(s.nodes[i].staged.value, r.active, r.pending, next);
      }
    }
  }

  ghost predicate AllAtLeast(r: Rotation, s: State, stage: Stage)
    requires r.Valid()
  {
    forall i: nat | Remaining(s, i) :: r.Stage(s.nodes[i].active) != Unknown && stage.Ord() <= r.Stage(s.nodes[i].active).Ord()
  }
}
