/** Progress of the staged CA rotation: no step undoes work, a completed pass moves every remaining node forward,
    and three completed passes rotate every node. */
module RotationProgress {
  import opened Wrappers
  import opened TrustStage
  import opened TalosConfig
  import opened TrustLaws
  import opened RotationProtocol

  /** The configuration a node will run after its next reboot. */
  function Committed(node: Node): MachineConfig {
    if node.staged.Some? then node.staged.value else node.active
  }

  ghost predicate AtLeast(r: Rotation, config: MachineConfig, stage: nat) {
    r.Stage(config) != Unknown && stage <= r.Stage(config).Ord()
  }

  /** The remembered observations of the pass in progress, if any. */
  ghost function SeenBy(phase: Phase): seq<Observation> {
    match phase
    case Observing(_, seen, _) => seen
    case Advancing(_, seen, _) => seen
    case Holding(_, seen, _, _) => seen
    case _ => []
  }


  // ----- nothing moves backwards -----

  ghost predicate NodesAbove(r: Rotation, s: State, floor: seq<nat>) {
    && |floor| == |s.nodes|
    && forall i: nat | Tracked(s, i) ::
         && AtLeast(r, s.nodes[i].active, floor[i])
         && AtLeast(r, Committed(s.nodes[i]), floor[i])
  }

  ghost predicate SeenAbove(seen: seq<Observation>, floor: seq<nat>) {
    forall k | 0 <= k < |seen| :: seen[k].node < |floor| && floor[seen[k].node] <= seen[k].stage.Ord()
  }

  /** No remaining node, staged configuration or remembered stage is below that node's floor. */
  ghost predicate AboveFloor(r: Rotation, s: State, floor: seq<nat>) {
    NodesAbove(r, s, floor) && SeenAbove(SeenBy(s.phase), floor)
  }

  /** What a pass stages is above the floor of its node. */
  lemma AppliedIsAboveFloor(r: Rotation, s: State, updated: MachineConfig, t: State, level: nat, floor: seq<nat>)
    requires r.Valid() && WithinLevel(r, s, level) && Step(r, s, Apply(updated), t)
    requires AboveFloor(r, s, floor)
    ensures var i := s.phase.seen[s.phase.next].node;
      Tracked(t, i) ==> AtLeast(r, updated, floor[i]) && Committed(t.nodes[i]) == updated
  {
    var o := SeenBy(s.phase)[s.phase.next];
    assert floor[o.node] <= o.stage.Ord();
    if !s.nodes[o.node].deleting {
      SetThenObserve(s.phase.config, updated, r.active, r.pending, NextStage(s.phase.minimum));
    }
  }

  lemma StepKeepsFloor(r: Rotation, s: State, action: Action, t: State, level: nat, floor: seq<nat>)
    requires r.Valid() && WithinLevel(r, s, level) && Step(r, s, action, t)
    requires AboveFloor(r, s, floor)
    ensures AboveFloor(r, t, floor)
  {
    if action.Observe? {
      assert Tracked(s, s.phase.next);
    }
    if action.Apply? {
      AppliedIsAboveFloor(r, s, action.updated, t, level, floor);
    }
    forall i: nat | Tracked(t, i)
      ensures AtLeast(r, t.nodes[i].active, floor[i]) && AtLeast(r, Committed(t.nodes[i]), floor[i])
    {
      assert Tracked(s, i);
    }
    assert SeenBy(t.phase) == SeenBy(s.phase) || SeenBy(t.phase) == [] || action.Observe?;
  }

  // ----- what a pass has done so far -----

  ghost predicate SeenAdvanced(r: Rotation, s: State, seen: seq<Observation>, next: nat, stage: nat)
    requires next <= |seen|
  {
    forall k | 0 <= k < next && Remaining(s, seen[k].node) :: AtLeast(r, Committed(s.nodes[seen[k].node]), stage)
  }

  ghost predicate AllCommitted(r: Rotation, s: State, stage: nat) {
    forall i: nat | Tracked(s, i) :: AtLeast(r, Committed(s.nodes[i]), stage)
  }

  /** Every node the pass has dealt with is committed beyond the pass's minimum. */
  ghost predicate PassProgress(r: Rotation, s: State) {
    match s.phase
    case Advancing(minimum, seen, next) => next <= |seen| && SeenAdvanced(r, s, seen, next, minimum.Ord() + 1)
    case Holding(minimum, seen, next, _) => next <= |seen| && SeenAdvanced(r, s, seen, next, minimum.Ord() + 1)
    case Finished(minimum) => AllCommitted(r, s, minimum.Ord() + 1) && AllActive(r, s, minimum.Ord())
    case _ => true
  }

  ghost predicate AllActive(r: Rotation, s: State, stage: nat) {
    forall i: nat | Tracked(s, i) :: AtLeast(r, s.nodes[i].active, stage)
  }

  lemma ApplyKeepsPassProgress(r: Rotation, s: State, updated: MachineConfig, t: State, level: nat)
    requires r.Valid() && WithinLevel(r, s, level) && Step(r, s, Apply(updated), t)
    requires PassProgress(r, s)
    ensures PassProgress(r, t)
  {
    var o := s.phase.seen[s.phase.next];
    if !s.nodes[o.node].deleting {
      SetThenObserve(s.phase.config, updated, r.active, r.pending, NextStage(s.phase.minimum));
    }
    forall k | 0 <= k < t.phase.next && Remaining(t, t.phase.seen[k].node)
      ensures AtLeast(r, Committed(t.nodes[t.phase.seen[k].node]), level + 1)
    {
      assert Remaining(s, s.phase.seen[k].node);
    }
  }

  lemma EndOfPassKeepsPassProgress(r: Rotation, s: State, action: Action, t: State, level: nat)
    requires r.Valid() && WithinLevel(r, s, level) && Step(r, s, action, t) && (action.SkipAhead? || action.Finish?)
    requires PassProgress(r, s)
    ensures PassProgress(r, t)
  {
    if action.SkipAhead? {
      var o := s.phase.seen[s.phase.next];
      assert ObservationWithin(r, s.nodes, o, level);
      assert o.stage.Ord() > level;
      if Remaining(s, o.node) {
        assert NodeWithin(r, s.nodes[o.node], level);
        assert AtLeast(r, Committed(s.nodes[o.node]), level + 1);
      }
    } else {
      forall i: nat | Tracked(t, i)
        ensures AtLeast(r, Committed(t.nodes[i]), level + 1) && AtLeast(r, t.nodes[i].active, level)
      {
        assert NodeWithin(r, s.nodes[i], level);
        assert SeenAt(s.phase.seen, i);
      }
    }
  }

  lemma StepKeepsPassProgress(r: Rotation, s: State, action: Action, t: State, level: nat)
    requires r.Valid() && WithinLevel(r, s, level) && Step(r, s, action, t)
    requires PassProgress(r, s)
    ensures PassProgress(r, t)
  {
    match action
    case Apply(updated) => ApplyKeepsPassProgress(r, s, updated, t, level);
    case SkipAhead => EndOfPassKeepsPassProgress(r, s, action, t, level);
    case Finish => EndOfPassKeepsPassProgress(r, s, action, t, level);
    case TakeEffect(i) =>
      assert s.nodes[i].deleting || NodeWithin(r, s.nodes[i], level);
      assert Committed(t.nodes[i]) == Committed(s.nodes[i]);
      assert forall j: nat | Remaining(t, j) :: Remaining(s, j) && Committed(t.nodes[j]) == Committed(s.nodes[j]);
      assert forall j: nat | Tracked(t, j) :: Tracked(s, j) && Committed(t.nodes[j]) == Committed(s.nodes[j]);
    case StartDeleting(i) =>
      assert forall j: nat | Remaining(t, j) :: Remaining(s, j) && t.nodes[j] == s.nodes[j];
      if s.phase.Finished? {
        assert forall j: nat | Tracked(t, j) :: Tracked(s, j) && t.nodes[j] == s.nodes[j];
      }
    case _ =>
      assert t.nodes == s.nodes;
  }

  // ----- after a pass: everything stays ahead of its minimum -----

  ghost predicate Ahead(r: Rotation, s: State, m: nat) {
    && AllActive(r, s, m)
    && AllCommitted(r, s, m + 1)
    && forall k | 0 <= k < |SeenBy(s.phase)| :: m <= SeenBy(s.phase)[k].stage.Ord()
  }

  lemma StepKeepsAhead(r: Rotation, s: State, action: Action, t: State, level: nat, m: nat)
    requires r.Valid() && WithinLevel(r, s, level) && Step(r, s, action, t)
    requires Ahead(r, s, m)
    ensures Ahead(r, t, m)
  {
    assert forall i: nat | Tracked(t, i) :: Tracked(s, i);
    match action
    case Apply(updated) =>
      ApplyKeepsAhead(r, s, updated, t, level, m);
    case Observe =>
      assert Tracked(s, s.phase.next);
    case _ =>
      assert SeenBy(t.phase) == SeenBy(s.phase) || SeenBy(t.phase) == [];
  }

  lemma ApplyKeepsAhead(r: Rotation, s: State, updated: MachineConfig, t: State, level: nat, m: nat)
    requires r.Valid() && WithinLevel(r, s, level) && Step(r, s, Apply(updated), t)
    requires Ahead(r, s, m)
    ensures Ahead(r, t, m)
  {
    if !s.nodes[s.phase.seen[s.phase.next].node].deleting {
      SetThenObserve(s.phase.config, updated, r.active, r.pending, NextStage(s.phase.minimum));
    }
    assert m <= SeenBy(s.phase)[s.phase.next].stage.Ord();
  }

  // ----- runs -----

  /** States that runs can be in: within some level, with the pass's promises kept. */
  ghost predicate Good(r: Rotation, s: State) {
    PassProgress(r, s) && exists level :: WithinLevel(r, s, level)
  }

  lemma StepKeepsGood(r: Rotation, s: State, t: State)
    requires r.Valid() && Good(r, s) && Next(r, s, t)
    ensures Good(r, t)
  {
    var level :| WithinLevel(r, s, level);
    var action :| Step(r, s, action, t);
    var level' := StepKeepsWithinLevel(r, s, action, t, level);
    StepKeepsPassProgress(r, s, action, t, level);
  }

  lemma {:induction false} RunKeepsGood(r: Rotation, run: seq<State>, n: nat)
    requires r.Valid() && IsRun(r, run) && n < |run| && Good(r, run[0])
    ensures Good(r, run[n])
  {
    if n > 0 {
      RunKeepsGood(r, run, n - 1);
      assert StepAt(r, run, n);
      StepKeepsGood(r, run[n - 1], run[n]);
    }
  }

  lemma {:induction false} RunKeepsFloor(r: Rotation, run: seq<State>, from: nat, to: nat, floor: seq<nat>)
    requires r.Valid() && IsRun(r, run) && from <= to < |run| && Good(r, run[0])
    requires AboveFloor(r, run[from], floor)
    ensures AboveFloor(r, run[to], floor)
  {
    if from < to {
      RunKeepsFloor(r, run, from, to - 1, floor);
      RunStepKeepsFloor(r, run, to, floor);
    }
  }

  lemma RunStepKeepsFloor(r: Rotation, run: seq<State>, k: nat, floor: seq<nat>)
    requires r.Valid() && IsRun(r, run) && 0 < k < |run| && Good(r, run[0])
    requires AboveFloor(r, run[k - 1], floor)
    ensures AboveFloor(r, run[k], floor)
  {
    RunKeepsGood(r, run, k - 1);
    assert StepAt(r, run, k);
    NextKeepsFloor(r, run[k - 1], run[k], floor);
  }

  lemma NextKeepsFloor(r: Rotation, s: State, t: State, floor: seq<nat>)
    requires r.Valid() && Good(r, s) && Next(r, s, t) && AboveFloor(r, s, floor)
    ensures AboveFloor(r, t, floor)
  {
    var level :| WithinLevel(r, s, level);
    var action :| Step(r, s, action, t);
    StepKeepsFloor(r, s, action, t, level, floor);
  }

  lemma {:induction false} RunKeepsAhead(r: Rotation, run: seq<State>, from: nat, to: nat, m: nat)
    requires r.Valid() && IsRun(r, run) && from <= to < |run| && Good(r, run[0])
    requires Ahead(r, run[from], m)
    ensures Ahead(r, run[to], m)
  {
    if from < to {
      RunKeepsAhead(r, run, from, to - 1, m);
      RunKeepsGood(r, run, to - 1);
      assert StepAt(r, run, to);
      NextKeepsAhead(r, run[to - 1], run[to], m);
    }
  }

  lemma NextKeepsAhead(r: Rotation, s: State, t: State, m: nat)
    requires r.Valid() && Good(r, s) && Next(r, s, t) && Ahead(r, s, m)
    ensures Ahead(r, t, m)
  {
    var level :| WithinLevel(r, s, level);
    var action :| Step(r, s, action, t);
    StepKeepsAhead(r, s, action, t, level, m);
  }

  /** Every staged configuration of a remaining node has taken effect. */
  ghost predicate Settled(s: State) {
    forall i: nat | Remaining(s, i) :: s.nodes[i].staged.None?
  }

  /** A pass that starts after `from` is completed, without an error, by the step into `finish`. */
  ghost predicate CompletesPass(run: seq<State>, from: nat, finish: nat) {
    && from < finish < |run|
    && BetweenPasses(run[from].phase)
    && run[finish - 1].phase.Advancing?
    && run[finish].phase.Finished?
  }

  /** The minimum a completed pass worked on, with the observation that attains it. */
  lemma PassMinimum(r: Rotation, run: seq<State>, from: nat, finish: nat, floor: seq<nat>)
    requires r.Valid() && IsRun(r, run) && Good(r, run[0]) && CompletesPass(run, from, finish)
    requires AboveFloor(r, run[from], floor)
    ensures AboveFloor(r, run[finish - 1], floor)
    ensures run[finish] == run[finish - 1].(phase := Finished(run[finish - 1].phase.minimum))
    ensures Ahead(r, run[finish], run[finish].phase.minimum.Ord())
  {
    RunKeepsFloor(r, run, from, finish - 1, floor);
    RunKeepsGood(r, run, finish);
    assert StepAt(r, run, finish);
    var action :| Step(r, run[finish - 1], action, run[finish]);
    FinishedIsAhead(r, run[finish - 1], action, run[finish]);
  }

  lemma FinishedIsAhead(r: Rotation, s: State, action: Action, t: State)
    requires r.Valid() && Step(r, s, action, t) && s.phase.Advancing? && t.phase.Finished? && PassProgress(r, t)
    ensures t == s.(phase := Finished(s.phase.minimum)) && t.phase.Finished?
    ensures Ahead(r, t, t.phase.minimum.Ord())
  {
  }

  lemma PassSawItsMinimum(r: Rotation, run: seq<State>, finish: nat, floor: seq<nat>) returns (node: nat)
    requires r.Valid() && IsRun(r, run) && Good(r, run[0]) && 0 < finish < |run|
    requires run[finish - 1].phase.Advancing? && AboveFloor(r, run[finish - 1], floor)
    ensures node < |floor| && floor[node] <= run[finish - 1].phase.minimum.Ord() < 3
  {
    RunKeepsGood(r, run, finish - 1);
    var s := run[finish - 1];
    var level :| WithinLevel(r, s, level);
    var k :| 0 <= k < |s.phase.seen| && s.phase.seen[k].stage == s.phase.minimum;
    node := SeenBy(s.phase)[k].node;
  }

  /** Between passes a floor under the active stages is a floor in every respect. */
  lemma BetweenPassesAboveFloor(r: Rotation, run: seq<State>, from: nat, floor: seq<nat>)
    requires r.Valid() && IsRun(r, run) && from < |run| && Good(r, run[0])
    requires BetweenPasses(run[from].phase) && |floor| == |run[from].nodes|
    requires forall i: nat | Remaining(run[from], i) :: floor[i] <= r.Stage(run[from].nodes[i].active).Ord()
    ensures AboveFloor(r, run[from], floor)
  {
    RunKeepsGood(r, run, from);
    var level :| WithinLevel(r, run[from], level);
    assert forall i: nat | Tracked(run[from], i) :: NodeWithin(r, run[from].nodes[i], level);
  }

  ghost function Constant(n: nat, stage: nat): seq<nat> {
    seq(n, _ => stage)
  }

  lemma SettledAhead(r: Rotation, s: State, m: nat, stage: nat)
    requires r.Valid() && Ahead(r, s, m) && Settled(s) && stage <= m
    ensures AllRemaining(r, s, stage + 1)
  {
    forall i: nat | Remaining(s, i)
      ensures AtLeast(r, s.nodes[i].active, stage + 1)
    {
      assert Tracked(s, i);
      assert Committed(s.nodes[i]) == s.nodes[i].active;
    }
  }

  ghost predicate AllRemaining(r: Rotation, s: State, stage: nat) {
    forall i: nat | Remaining(s, i) :: AtLeast(r, s.nodes[i].active, stage)
  }

  /** A completed pass, once its reboots have happened, lifts the lowest stage among the remaining nodes by one. */
  lemma CompletedPassRaisesTheLowestStage(r: Rotation, run: seq<State>, from: nat, finish: nat, settled: nat, stage: nat)
    requires r.Valid() && IsRun(r, run) && Initial(r, run[0])
    requires CompletesPass(run, from, finish) && AllRemaining(r, run[from], stage)
    requires finish <= settled < |run| && Settled(run[settled])
    ensures AllRemaining(r, run[settled], stage + 1)
  {
    InitialWithinLevel(r, run[0]);
    var floor := Constant(|run[from].nodes|, stage);
    forall i: nat | Remaining(run[from], i)
      ensures floor[i] <= r.Stage(run[from].nodes[i].active).Ord()
    {
      assert AtLeast(r, run[from].nodes[i].active, stage);
    }
    BetweenPassesAboveFloor(r, run, from, floor);
    PassMinimum(r, run, from, finish, floor);
    var node := PassSawItsMinimum(r, run, finish, floor);
    var m := run[finish].phase.minimum.Ord();
    assert floor[node] == stage;
    RunKeepsAhead(r, run, finish, settled, m);
    SettledAhead(r, run[settled], m, stage);
  }

  /** From all-Stable, three completed passes whose reboots have happened rotate every remaining node. */
  lemma ThreePassesSuffice(r: Rotation, run: seq<State>, finish1: nat, settled1: nat, finish2: nat, settled2: nat, finish3: nat, settled3: nat)
    requires r.Valid() && IsRun(r, run) && Initial(r, run[0])
    requires CompletesPass(run, 0, finish1) && finish1 <= settled1 < |run| && Settled(run[settled1])
    requires CompletesPass(run, settled1, finish2) && finish2 <= settled2 < |run| && Settled(run[settled2])
    requires CompletesPass(run, settled2, finish3) && finish3 <= settled3 < |run| && Settled(run[settled3])
    ensures forall i: nat | Remaining(run[settled3], i) :: r.Stage(run[settled3].nodes[i].active) == Rotated
  {
    CompletedPassRaisesTheLowestStage(r, run, 0, finish1, settled1, 0);
    CompletedPassRaisesTheLowestStage(r, run, settled1, finish2, settled2, 1);
    CompletedPassRaisesTheLowestStage(r, run, settled2, finish3, settled3, 2);
    forall i: nat | Remaining(run[settled3], i)
      ensures r.Stage(run[settled3].nodes[i].active) == Rotated
    {
      assert AtLeast(r, run[settled3].nodes[i].active, 3);
    }
  }

  /** Between passes no remaining node ever falls below a stage that all of them had reached. */
  lemma StagesNeverFall(r: Rotation, run: seq<State>, from: nat, to: nat, stage: nat)
    requires r.Valid() && IsRun(r, run) && Initial(r, run[0]) && from <= to < |run|
    requires BetweenPasses(run[from].phase) && AllRemaining(r, run[from], stage)
    ensures AllRemaining(r, run[to], stage)
  {
    InitialWithinLevel(r, run[0]);
    var floor := Constant(|run[from].nodes|, stage);
    forall i: nat | Remaining(run[from], i)
      ensures floor[i] <= r.Stage(run[from].nodes[i].active).Ord()
    {
      assert AtLeast(r, run[from].nodes[i].active, stage);
    }
    BetweenPassesAboveFloor(r, run, from, floor);
    RunKeepsFloor(r, run, from, to, floor);
    assert forall i: nat | Remaining(run[to], i) :: Tracked(run[to], i);
  }

  // ----- whole calls of the controller -----

  /** What an undisturbed reconcile leaves behind: it completed its pass, or promoted, or no node remained. */
  ghost predicate UndisturbedCall(run: seq<State>, from: nat, finish: nat) {
    && from < finish < |run| && BetweenPasses(run[from].phase) && BetweenPasses(run[finish].phase)
    && (CompletesPass(run, from, finish) || run[finish].phase.Promoting? || NotDeleting(run[from].nodes) == {})
  }

  lemma UndisturbedCallRaisesTheLowestStage(r: Rotation, run: seq<State>, from: nat, finish: nat, settled: nat, stage: nat)
    requires r.Valid() && IsRun(r, run) && Initial(r, run[0]) && stage < 3
    requires UndisturbedCall(run, from, finish) && AllRemaining(r, run[from], stage)
    requires finish <= settled < |run| && Settled(run[settled])
    ensures AllRemaining(r, run[settled], stage + 1)
  {
    if CompletesPass(run, from, finish) {
      CompletedPassRaisesTheLowestStage(r, run, from, finish, settled, stage);
    } else if run[finish].phase.Promoting? {
      RunsAreSafe(r, run);
      assert AllRemaining(r, run[finish], 3);
      StagesNeverFall(r, run, finish, settled, 3);
    } else {
      forall i: nat
        ensures !Remaining(run[settled], i)
      {
        DeletionIsForever(r, run, from, settled, i);
        assert Remaining(run[from], i) ==> i in NotDeleting(run[from].nodes);
      }
    }
  }

  /** The calls in question, each with the moment its reboots had happened: undisturbed, and one after the other, though
      disturbed ones may lie between them. */
  datatype Call = Call(from: nat, finish: nat, settled: nat)

  ghost predicate SettledCall(run: seq<State>, earliest: nat, call: Call) {
    && earliest <= call.from && UndisturbedCall(run, call.from, call.finish)
    && call.finish <= call.settled < |run| && Settled(run[call.settled]) && BetweenPasses(run[call.settled].phase)
  }

  /** Three undisturbed reconciles whose reboots have happened rotate every remaining node. */
  lemma ThreeUndisturbedCallsSuffice(r: Rotation, run: seq<State>, first: Call, second: Call, third: Call)
    requires r.Valid() && IsRun(r, run) && Initial(r, run[0])
    requires SettledCall(run, 0, first) && SettledCall(run, first.settled, second) && SettledCall(run, second.settled, third)
    ensures forall i: nat | Remaining(run[third.settled], i) :: r.Stage(run[third.settled].nodes[i].active) == Rotated
  {
    assert AllRemaining(r, run[0], 0);
    StagesNeverFall(r, run, 0, first.from, 0);
    UndisturbedCallRaisesTheLowestStage(r, run, first.from, first.finish, first.settled, 0);
    StagesNeverFall(r, run, first.settled, second.from, 1);
    UndisturbedCallRaisesTheLowestStage(r, run, second.from, second.finish, second.settled, 1);
    StagesNeverFall(r, run, second.settled, third.from, 2);
    UndisturbedCallRaisesTheLowestStage(r, run, third.from, third.finish, third.settled, 2);
    forall i: nat | Remaining(run[third.settled], i)
      ensures r.Stage(run[third.settled].nodes[i].active) == Rotated
    {
      assert AtLeast(r, run[third.settled].nodes[i].active, 3);
    }
  }

  // ----- the amount of work left -----

  /** Stages a node still has to go; nodes that are being deleted need no more work. */
  function WorkLeft(r: Rotation, node: Node): nat {
    if node.deleting || r.Stage(node.active) == Unknown then 0 else 3 - r.Stage(node.active).Ord()
  }

  function Potential(r: Rotation, nodes: seq<Node>): nat {
    if nodes == [] then 0 else WorkLeft(r, nodes[0]) + Potential(r, nodes[1..])
  }

  lemma {:induction false} PotentialIsMonotone(r: Rotation, before: seq<Node>, after: seq<Node>)
    requires |before| == |after|
    requires forall i | 0 <= i < |before| :: WorkLeft(r, after[i]) <= WorkLeft(r, before[i])
    ensures Potential(r, after) <= Potential(r, before)
    ensures (exists i :: 0 <= i < |before| && WorkLeft(r, after[i]) < WorkLeft(r, before[i])) ==> Potential(r, after) < Potential(r, before)
  {
    if before != [] {
      PotentialIsMonotone(r, before[1..], after[1..]);
      if w :| 0 <= w < |before| && WorkLeft(r, after[w]) < WorkLeft(r, before[w]) {
        if w > 0 {
          assert WorkLeft(r, after[1..][w - 1]) < WorkLeft(r, before[1..][w - 1]);
        }
      }
    }
  }

  ghost predicate NoMoreWork(r: Rotation, before: seq<Node>, after: seq<Node>) {
    && |after| == |before|
    && forall i | 0 <= i < |before| :: WorkLeft(r, after[i]) <= WorkLeft(r, before[i])
  }

  /** No step, whether of the controller or of its environment, adds work to any node. */
  lemma StepNeverAddsWork(r: Rotation, s: State, action: Action, t: State, level: nat)
    requires r.Valid() && WithinLevel(r, s, level) && Step(r, s, action, t)
    ensures NoMoreWork(r, s.nodes, t.nodes)
    ensures Potential(r, t.nodes) <= Potential(r, s.nodes)
  {
    forall i | 0 <= i < |s.nodes|
      ensures WorkLeft(r, t.nodes[i]) <= WorkLeft(r, s.nodes[i])
    {
      assert s.nodes[i].deleting || NodeWithin(r, s.nodes[i], level);
    }
    PotentialIsMonotone(r, s.nodes, t.nodes);
  }

  lemma {:induction false} RunNeverAddsWork(r: Rotation, run: seq<State>, from: nat, to: nat)
    requires r.Valid() && IsRun(r, run) && from <= to < |run| && Good(r, run[0])
    ensures NoMoreWork(r, run[from].nodes, run[to].nodes)
  {
    if from < to {
      RunNeverAddsWork(r, run, from, to - 1);
      RunStepNeverAddsWork(r, run, to);
    }
  }

  lemma RunStepNeverAddsWork(r: Rotation, run: seq<State>, k: nat)
    requires r.Valid() && IsRun(r, run) && 0 < k < |run| && Good(r, run[0])
    ensures NoMoreWork(r, run[k - 1].nodes, run[k].nodes)
  {
    RunKeepsGood(r, run, k - 1);
    assert StepAt(r, run, k);
    var level :| WithinLevel(r, run[k - 1], level);
    var action :| Step(r, run[k - 1], action, run[k]);
    StepNeverAddsWork(r, run[k - 1], action, run[k], level);
  }

  /** The stages the nodes are at, as a floor for later states; a deleting node gets a floor no stage reaches. */
  ghost function StagesOf(r: Rotation, nodes: seq<Node>): (floor: seq<nat>)
    ensures |floor| == |nodes|
  {
    seq(|nodes|, i requires 0 <= i < |nodes| => if nodes[i].deleting then 4 else r.Stage(nodes[i].active).Ord())
  }

  lemma {:induction false} DeletionIsForever(r: Rotation, run: seq<State>, from: nat, to: nat, i: nat)
    requires r.Valid() && IsRun(r, run) && from <= to < |run|
    ensures |run[to].nodes| == |run[from].nodes|
    ensures Remaining(run[to], i) ==> Remaining(run[from], i)
  {
    if from < to {
      DeletionIsForever(r, run, from, to - 1, i);
      assert StepAt(r, run, to);
      var action :| Step(r, run[to - 1], action, run[to]);
    }
  }

  /** A completed pass whose reboots have happened strictly reduces the work left. */
  lemma CompletedPassReducesWork(r: Rotation, run: seq<State>, from: nat, finish: nat, settled: nat)
    requires r.Valid() && IsRun(r, run) && Initial(r, run[0])
    requires CompletesPass(run, from, finish)
    requires finish <= settled < |run| && Settled(run[settled])
    ensures Potential(r, run[settled].nodes) < Potential(r, run[from].nodes)
  {
    InitialWithinLevel(r, run[0]);
    var floor := StagesOf(r, run[from].nodes);
    BetweenPassesAboveFloor(r, run, from, floor);
    PassMinimum(r, run, from, finish, floor);
    var m := run[finish].phase.minimum.Ord();
    var busy := PassSawItsMinimum(r, run, finish, floor);
    assert Remaining(run[from], busy);
    RunKeepsAhead(r, run, finish, settled, m);
    RunNeverAddsWork(r, run, from, settled);
    BusyNodeAdvances(r, run, from, finish, settled, busy, m);
    PotentialIsMonotone(r, run[from].nodes, run[settled].nodes);
  }

  lemma BusyNodeAdvances(r: Rotation, run: seq<State>, from: nat, finish: nat, settled: nat, busy: nat, m: nat)
    requires r.Valid() && IsRun(r, run) && from <= finish <= settled < |run|
    requires busy < |run[from].nodes| && Remaining(run[from], busy)
    requires r.Stage(run[from].nodes[busy].active).Ord() <= m < 3
    requires Settled(run[settled]) && Ahead(r, run[settled], m)
    ensures |run[settled].nodes| == |run[from].nodes|
    ensures WorkLeft(r, run[settled].nodes[busy]) < WorkLeft(r, run[from].nodes[busy])
  {
    DeletionIsForever(r, run, from, settled, busy);
    if Remaining(run[settled], busy) {
      assert AtLeast(r, Committed(run[settled].nodes[busy]), m + 1);
    }
  }
}
