/** Every run is finite, every node body starts boundedly often, and a run that has not ended
    can always be brought to its end. */
module PipelineTermination {
  import opened PipelineModel
  import opened PipelineSafety
  import opened PipelineConfluence

  function RetriesLeft(g: Graph, s: RunState, n: NodeId): nat {
    var used := if n in s.nodes then s.nodes[n].retries else 0;
    if used < RetryLimit(g, n) then RetryLimit(g, n) - used else 0
  }

  predicate Unstarted(s: RunState, n: NodeId) {
    n !in s.nodes || s.nodes[n].status == Pending
  }

  /** The steps a node can still cause: two per attempt left, one for the wake-up at its end. */
  function NodeCost(g: Graph, s: RunState, n: NodeId): nat {
    (if Unstarted(s, n) then 2 * RetryLimit(g, n) + 3 else if s.nodes[n].status == Waiting then 2 else 0)
    + (if n in s.queued then 2 * RetriesLeft(g, s, n) + 3 else 0)
    + (if n in s.active then 2 * RetriesLeft(g, s, n) + 2 else 0)
  }

  function SumCost(g: Graph, s: RunState, configs: seq<NodeConfig>): nat {
    if configs == [] then 0 else NodeCost(g, s, configs[0].id) + SumCost(g, s, configs[1..])
  }

  function Measure(g: Graph, s: RunState): nat {
    SumCost(g, s, g.nodes) + s.advances + if Terminal(s.status) then 0 else 1
  }

  lemma {:induction false} SumFalls(g: Graph, s: RunState, t: RunState, configs: seq<NodeConfig>, n: NodeId, drop: nat)
    requires forall m :: NodeCost(g, t, m) <= NodeCost(g, s, m)
    requires drop > 0 ==> NodeCost(g, t, n) + drop <= NodeCost(g, s, n) && exists c :: c in configs && c.id == n
    ensures SumCost(g, t, configs) + drop <= SumCost(g, s, configs)
  {
    if configs == [] {
    } else {
      if configs[0].id == n {
        SumFalls(g, s, t, configs[1..], n, 0);
      } else {
        SumFalls(g, s, t, configs[1..], n, drop);
      }
    }
  }

  lemma DispatchCost(g: Graph, s: RunState, n: NodeId)
    requires Inv(g, s) && s.advances > 0 && !Terminal(s.status) && g.nodes != []
    requires n in ReadySet(g, WithRecords(g, s.nodes))
    ensures NodeCost(g, Apply(g, s, Advance), n) <= NodeCost(g, s, n)
  {
    assert Unstarted(s, n) && !Unstarted(Apply(g, s, Advance), n);
    assert Outstanding(s, n) == 0;
  }

  /** A wake-up leaves alone what it does not dispatch, up to creating a pending record. */
  lemma NotDispatched(g: Graph, s: RunState, n: NodeId)
    requires s.advances > 0
    requires Terminal(s.status) || g.nodes == [] || n !in ReadySet(g, WithRecords(g, s.nodes))
    ensures var t := Apply(g, s, Advance);
      && t.queued[n] == s.queued[n] && t.active[n] == s.active[n]
      && (n in s.nodes ==> n in t.nodes && t.nodes[n] == s.nodes[n])
      && (n in t.nodes && n !in s.nodes ==> t.nodes[n].status == Pending && t.nodes[n].retries == 0)
  {
  }

  lemma AdvanceCost(g: Graph, s: RunState, n: NodeId)
    requires Inv(g, s) && s.advances > 0
    ensures NodeCost(g, Apply(g, s, Advance), n) <= NodeCost(g, s, n)
  {
    if Terminal(s.status) || g.nodes == [] || n !in ReadySet(g, WithRecords(g, s.nodes)) {
      NotDispatched(g, s, n);
    } else {
      DispatchCost(g, s, n);
    }
  }

  lemma StartCost(g: Graph, s: RunState, n: NodeId)
    requires MessagesMatch(s) && Enabled(g, s, Start(n))
    ensures NodeCost(g, Apply(g, s, Start(n)), n) + 1 <= NodeCost(g, s, n)
  {
    MessageMoves(s.queued, n);
    MessageMoves(s.active, n);
    assert Outstanding(s, n) == 1;
  }

  lemma ActiveCost(g: Graph, s: RunState, n: NodeId)
    requires MessagesMatch(s) && n in s.active && n in s.nodes
    ensures NodeCost(g, s, n) == 2 * RetriesLeft(g, s, n) + 2 && s.active[n] == 1 && s.queued[n] == 0
  {
    assert Outstanding(s, n) == 1;
  }

  lemma FinishCost(g: Graph, s: RunState, n: NodeId, ok: bool)
    requires MessagesMatch(s) && Enabled(g, s, Finish(n, ok))
    ensures var t := Apply(g, s, Finish(n, ok));
      NodeCost(g, t, n) + 1 + (t.advances - s.advances) <= NodeCost(g, s, n) && s.advances <= t.advances
  {
    ActiveCost(g, s, n);
    MessageMoves(s.queued, n);
    MessageMoves(s.active, n);
    var t := Apply(g, s, Finish(n, ok));
    assert t.active[n] == 0 && n in t.nodes;
    if t.nodes[n].status == Running {
      assert RetriesLeft(g, t, n) == RetriesLeft(g, s, n) - 1;
    } else {
      assert t.queued[n] == 0 && NodeCost(g, t, n) == 0;
    }
  }

  lemma ApproveCost(g: Graph, s: RunState, n: NodeId, pass: bool)
    requires MessagesMatch(s) && Enabled(g, s, Approve(n, pass))
    ensures NodeCost(g, Apply(g, s, Approve(n, pass)), n) + 2 <= NodeCost(g, s, n)
  {
  }

  lemma OwnCostFalls(g: Graph, s: RunState, step: Step)
    requires MessagesMatch(s) && Enabled(g, s, step) && Local(step)
    ensures var t, n := Apply(g, s, step), step.node;
      NodeCost(g, t, n) + 1 + (t.advances - s.advances) <= NodeCost(g, s, n) && s.advances <= t.advances
  {
    match step
    case Start(n) => StartCost(g, s, n);
    case Finish(n, ok) => FinishCost(g, s, n, ok);
    case Approve(n, pass) => ApproveCost(g, s, n, pass);
  }

  lemma LocalFalls(g: Graph, s: RunState, step: Step)
    requires Inv(g, s) && Enabled(g, s, step) && Local(step)
    ensures Measure(g, Apply(g, s, step)) < Measure(g, s)
  {
    var t, n := Apply(g, s, step), step.node;
    OwnCostFalls(g, s, step);
    forall m ensures NodeCost(g, t, m) <= NodeCost(g, s, m) {
      if m != n { OthersUntouched(g, s, step, m); }
    }
    assert n in Ids(g);
    SumFalls(g, s, t, g.nodes, n, 1 + t.advances - s.advances);
  }

  lemma StopCost(g: Graph, s: RunState, survivors: multiset<NodeId>, n: NodeId)
    requires Enabled(g, s, Stop(survivors))
    ensures NodeCost(g, Apply(g, s, Stop(survivors)), n) <= NodeCost(g, s, n)
  {
  }

  /** Every step lowers the measure. */
  lemma StepFalls(g: Graph, s: RunState, step: Step)
    requires Inv(g, s) && Enabled(g, s, step)
    ensures Measure(g, Apply(g, s, step)) < Measure(g, s)
  {
    var t := Apply(g, s, step);
    match step {
      case Advance =>
        forall m ensures NodeCost(g, t, m) <= NodeCost(g, s, m) { AdvanceCost(g, s, m); }
        SumFalls(g, s, t, g.nodes, NodeId(""), 0);
      case Stop(survivors) =>
        forall m ensures NodeCost(g, t, m) <= NodeCost(g, s, m) { StopCost(g, s, survivors, m); }
        SumFalls(g, s, t, g.nodes, NodeId(""), 0);
      case _ => LocalFalls(g, s, step);
    }
  }

  /** Termination: no run, Stop and retries included, has more steps than its first state's measure. */
  lemma {:induction false} RunsAreBounded(g: Graph, s: RunState, steps: seq<Step>, t: RunState)
    requires Inv(g, s) && Runs(g, s, steps, t)
    ensures |steps| + Measure(g, t) <= Measure(g, s)
    decreases |steps|
  {
    if steps == [] {
    } else {
      StepInv(g, s, steps[0]);
      StepFalls(g, s, steps[0]);
      RunsAreBounded(g, Apply(g, s, steps[0]), steps[1..], t);
    }
  }

  /******* Attempts per node *******/

  /** How often a worker enters the body of `n`: a start in a cancelled run does not count. */
  ghost function BodyStarts(g: Graph, s: RunState, steps: seq<Step>, n: NodeId): nat
    decreases |steps|
  {
    if steps == [] || !Enabled(g, s, steps[0]) then 0
    else (if steps[0] == Start(n) && s.status != RunCancelled then 1 else 0)
         + BodyStarts(g, Apply(g, s, steps[0]), steps[1..], n)
  }

  function AttemptsLeft(g: Graph, s: RunState, n: NodeId): nat {
    RetriesLeft(g, s, n) + if Unstarted(s, n) || n in s.queued then 1 else 0
  }

  lemma AttemptStep(g: Graph, s: RunState, step: Step, n: NodeId)
    requires Inv(g, s) && Enabled(g, s, step)
    ensures AttemptsLeft(g, Apply(g, s, step), n) + (if step == Start(n) && s.status != RunCancelled then 1 else 0)
            <= AttemptsLeft(g, s, n)
  {
    if step == Advance {
      AdvanceAttempts(g, s, n);
    } else if Local(step) && step.node != n {
      OthersUntouched(g, s, step, n);
    } else if Local(step) {
      OwnAttempts(g, s, step);
    }
  }

  lemma OwnAttempts(g: Graph, s: RunState, step: Step)
    requires MessagesMatch(s) && Enabled(g, s, step) && Local(step)
    ensures AttemptsLeft(g, Apply(g, s, step), step.node) + (if step.Start? && s.status != RunCancelled then 1 else 0)
            <= AttemptsLeft(g, s, step.node)
  {
  }

  lemma AdvanceAttempts(g: Graph, s: RunState, n: NodeId)
    requires Inv(g, s) && s.advances > 0
    ensures AttemptsLeft(g, Apply(g, s, Advance), n) <= AttemptsLeft(g, s, n)
  {
  }

  /** Each node body starts at most max(0, max_retries) + 1 times in any run. */
  lemma {:induction false} BodyStartsBounded(g: Graph, s: RunState, steps: seq<Step>, t: RunState, n: NodeId)
    requires Inv(g, s) && Runs(g, s, steps, t)
    ensures BodyStarts(g, s, steps, n) + AttemptsLeft(g, t, n) <= AttemptsLeft(g, s, n) <= RetryLimit(g, n) + 1
    decreases |steps|
  {
    if steps == [] {
    } else {
      var s' := Apply(g, s, steps[0]);
      assert Inv(g, s') by { StepInv(g, s, steps[0]); }
      AttemptStep(g, s, steps[0], n);
      BodyStartsBounded(g, s', steps[1..], t, n);
    }
  }

  /******* Completion *******/

  /** An unfinished run always has a step that honors the given outcomes. */
  lemma CanMove(g: Graph, s: RunState, good: set<NodeId>) returns (step: Step)
    requires Inv(g, s) && !Terminal(s.status)
    ensures Enabled(g, s, step) && Honors(g, s, step, good)
  {
    if s.advances > 0 {
      step := Advance;
    } else if n :| Outstanding(s, n) == 1 && n in s.nodes && s.nodes[n].status == Running {
      step := if n in s.queued then Start(n) else Finish(n, n in good);
    } else {
      assert Has(s.nodes, Waiting);
      var n :| n in s.nodes && s.nodes[n].status == Waiting;
      step := Approve(n, n in good);
    }
  }

  /** From every reachable state the run can be completed, whatever outcomes the nodes are to have. */
  lemma {:induction false} Completes(g: Graph, s: RunState, good: set<NodeId>) returns (steps: seq<Step>, t: RunState)
    requires Inv(g, s)
    ensures Runs(g, s, steps, t) && RunHonors(g, s, steps, good) && Terminal(t.status)
    decreases Measure(g, s)
  {
    if Terminal(s.status) {
      steps, t := [], s;
    } else {
      var step := CanMove(g, s, good);
      assert Inv(g, Apply(g, s, step)) by { StepInv(g, s, step); }
      StepFalls(g, s, step);
      var rest, u := Completes(g, Apply(g, s, step), good);
      steps, t := [step] + rest, u;
      assert steps[1..] == rest;
    }
  }

  /******* The theorem *******/

  /** Two steps for the run itself, and per node three plus two for every allowed retry. */
  function StepBound(g: Graph, configs: seq<NodeConfig>): nat {
    if configs == [] then 2 else 2 * RetryLimit(g, configs[0].id) + 3 + StepBound(g, configs[1..])
  }

  lemma {:induction false} InitCost(g: Graph, s: RunState, configs: seq<NodeConfig>)
    requires Init(g, s)
    ensures SumCost(g, s, configs) + 2 <= StepBound(g, configs)
  {
    if configs == [] {
    } else {
      InitCost(g, s, configs[1..]);
    }
  }

  /** Termination: every run is shorter than an explicit bound, every node body starts at most
      max(0, max_retries) + 1 times, and a run in which nothing but Stop could happen has ended. */
  lemma {:induction false} Termination(g: Graph, s: RunState, steps: seq<Step>, t: RunState)
    requires Init(g, s) && Runs(g, s, steps, t)
    ensures |steps| <= StepBound(g, g.nodes)
    ensures forall n :: BodyStarts(g, s, steps, n) <= RetryLimit(g, n) + 1
    ensures (forall step :: Enabled(g, t, step) ==> step.Stop?) ==> Terminal(t.status)
  {
    InitInv(g, s);
    RunsInv(g, s, steps, t);
    RunsAreBounded(g, s, steps, t);
    InitCost(g, s, g.nodes);
    forall n ensures BodyStarts(g, s, steps, n) <= RetryLimit(g, n) + 1 { BodyStartsBounded(g, s, steps, t, n); }
    if !Terminal(t.status) {
      var step := CanMove(g, t, {});
      assert Enabled(g, t, step) && !step.Stop?;
    }
  }
}
