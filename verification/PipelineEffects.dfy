/** What single steps and whole runs do to one entry of the graph, said on the entries themselves: who waits
    for a person, how often a failing node is tried, and what a wake-up writes. */
module PipelineEffects {
  import opened PipelineModel
  import opened PipelineSafety
  import opened PipelineTermination

  /** Entry `i` is the first one with its id. */
  predicate IsFirst(g: Graph, i: nat) {
    i < |g.nodes| && forall j :: 0 <= j < i ==> g.nodes[j].id != g.nodes[i].id
  }

  lemma FirstDecides(g: Graph, i: nat)
    requires IsFirst(g, i)
    ensures ConfigOf(g.nodes, g.nodes[i].id) == g.nodes[i] && g.nodes[i].id in Ids(g)
  {
    FirstConfig(g.nodes, i);
    assert g.nodes[i] in g.nodes;
  }

  /******* One step *******/

  /** The node's record before the wake-up, or the one the wake-up creates. */
  function RecordBefore(s: RunState, c: NodeConfig): NodeRun {
    if c.id in s.nodes then s.nodes[c.id] else NodeRun(Pending, c.isApproval, 0)
  }

  /** The wake-up finds the node pending and every edge into it coming from a finished or skipped node. */
  ghost predicate Dispatchable(g: Graph, s: RunState, c: NodeConfig) {
    RecordBefore(s, c).status == Pending &&
    forall m :: Edge(m, c.id) in g.edges ==> m in s.nodes && s.nodes[m].status in {Success, Skipped}
  }

  lemma ReadyIsDispatchable(g: Graph, s: RunState, i: nat)
    requires IsFirst(g, i)
    ensures g.nodes[i].id in ReadySet(g, WithRecords(g, s.nodes)) <==> Dispatchable(g, s, g.nodes[i])
    ensures WithRecords(g, s.nodes)[g.nodes[i].id] == RecordBefore(s, g.nodes[i])
  {
    FirstDecides(g, i);
    var n, nodes := g.nodes[i].id, WithRecords(g, s.nodes);
    if n in ReadySet(g, nodes) {
      forall m | Edge(m, n) in g.edges ensures m in s.nodes && s.nodes[m].status in {Success, Skipped} {
        assert Edge(m, n).target == n && Done(nodes, Edge(m, n).source);
      }
    }
    if Dispatchable(g, s, g.nodes[i]) {
      forall e | e in g.edges && e.target == n ensures Done(nodes, e.source) { assert e == Edge(e.source, n); }
    }
  }

  /** A wake-up of an unfinished run over a non-empty graph, entry by entry: an approval node that can be
      dispatched waits, any other such node runs and gets one execute message, the rest stays as it was. */
  lemma AdvanceEffect(g: Graph, s: RunState, i: nat)
    requires s.advances > 0 && s.status in {RunPending, RunRunning} && IsFirst(g, i)
    ensures var t, c := Apply(g, s, Advance), g.nodes[i];
      && c.id in t.nodes && t.advances == s.advances - 1 && t.active == s.active
      && if !Dispatchable(g, s, c) then t.nodes[c.id] == RecordBefore(s, c) && t.queued[c.id] == s.queued[c.id]
         else if RecordBefore(s, c).isApproval then
           t.nodes[c.id] == RecordBefore(s, c).(status := Waiting) && t.queued[c.id] == s.queued[c.id]
         else t.nodes[c.id] == RecordBefore(s, c).(status := Running) && t.queued[c.id] == s.queued[c.id] + 1
  {
    ReadyIsDispatchable(g, s, i);
    FirstDecides(g, i);
  }

  ghost predicate SomeNode(nodes: map<NodeId, NodeRun>, status: NodeStatus) {
    exists n :: n in nodes && nodes[n].status == status
  }

  /** A wake-up of an ended run only consumes its message, and an empty graph fails. */
  lemma AdvanceNothing(g: Graph, s: RunState)
    requires s.advances > 0
    ensures s.status in {RunSuccess, RunFailed, RunCancelled} ==>
      Apply(g, s, Advance) == s.(advances := s.advances - 1)
    ensures s.status in {RunPending, RunRunning} && g.nodes == [] ==>
      Apply(g, s, Advance) == s.(advances := s.advances - 1, status := RunFailed)
  {
  }

  /** The run's status after any other wake-up, by the node records it leaves. */
  lemma AdvanceVerdict(g: Graph, s: RunState)
    requires s.advances > 0 && s.status in {RunPending, RunRunning} && g.nodes != []
    ensures var t := Apply(g, s, Advance);
      t.status ==
        if SomeNode(t.nodes, Running) || SomeNode(t.nodes, Waiting) then RunRunning
        else if SomeNode(t.nodes, Failed) then RunFailed
        else if SomeNode(t.nodes, Cancelled) then RunCancelled
        else if SomeNode(t.nodes, Pending) then RunFailed
        else RunSuccess
  {
    var nodes := WithRecords(g, s.nodes);
    var t, ready := Apply(g, s, Advance), ReadySet(g, nodes);
    if ready != {} {
      var n :| n in ready;
      assert n in t.nodes && t.nodes[n].status in {Running, Waiting};
    } else {
      assert t.nodes == nodes;
    }
  }

  /** The end of a node body: success, another try as long as the entry's `max_retries` allows, or failure;
      the scheduler is woken except before another try. */
  lemma FinishEffect(g: Graph, s: RunState, i: nat, ok: bool)
    requires IsFirst(g, i) && g.nodes[i].id in s.active && g.nodes[i].id in s.nodes
    ensures var c := g.nodes[i];
      var t, again := Apply(g, s, Finish(c.id, ok)), !ok && s.nodes[c.id].retries < c.maxRetries;
      && t.status == s.status && t.nodes.Keys == s.nodes.Keys && t.active[c.id] == s.active[c.id] - 1
      && t.nodes[c.id].status == (if ok then Success else if again then Running else Failed)
      && t.nodes[c.id].retries == s.nodes[c.id].retries + (if again then 1 else 0)
      && t.queued[c.id] == s.queued[c.id] + (if again then 1 else 0)
      && t.advances == s.advances + (if again then 0 else 1)
  {
    FirstDecides(g, i);
  }

  /******* Who waits for a person *******/

  ghost predicate Labelled(g: Graph, s: RunState) {
    forall n :: n in s.nodes ==> s.nodes[n].isApproval == ConfigOf(g.nodes, n).isApproval
  }

  /** Approval nodes never run, the others never wait. */
  ghost predicate KindsKept(s: RunState) {
    forall n :: n in s.nodes ==>
      if s.nodes[n].isApproval then s.nodes[n].status != Running && Outstanding(s, n) == 0
      else s.nodes[n].status != Waiting
  }

  lemma KindsStep(g: Graph, s: RunState, step: Step)
    requires MessagesMatch(s) && Labelled(g, s) && KindsKept(s) && Enabled(g, s, step)
    ensures Labelled(g, Apply(g, s, step)) && KindsKept(Apply(g, s, step))
  {
    var t := Apply(g, s, step);
    forall n | n in t.nodes
      ensures t.nodes[n].isApproval == ConfigOf(g.nodes, n).isApproval
      ensures if t.nodes[n].isApproval then t.nodes[n].status != Running && Outstanding(t, n) == 0
              else t.nodes[n].status != Waiting
    {
      if step == Advance {
        AdvanceKinds(g, s, n);
      } else if Local(step) && step.node != n {
        OthersUntouched(g, s, step, n);
      } else if Local(step) {
        LocalKinds(g, s, step);
      }
    }
  }

  lemma LocalKinds(g: Graph, s: RunState, step: Step)
    requires KindsKept(s) && Enabled(g, s, step) && Local(step)
    ensures var t, n := Apply(g, s, step), step.node;
      && n in t.nodes && t.nodes[n].isApproval == s.nodes[n].isApproval
      && if t.nodes[n].isApproval then t.nodes[n].status != Running && Outstanding(t, n) == 0
         else t.nodes[n].status != Waiting
  {
    assert step.Start? || step.Finish? ==> Outstanding(s, step.node) > 0;
  }

  lemma AdvanceKinds(g: Graph, s: RunState, n: NodeId)
    requires MessagesMatch(s) && Labelled(g, s) && KindsKept(s) && s.advances > 0
    requires n in Apply(g, s, Advance).nodes
    ensures var t := Apply(g, s, Advance);
      && t.nodes[n].isApproval == ConfigOf(g.nodes, n).isApproval
      && if t.nodes[n].isApproval then t.nodes[n].status != Running && Outstanding(t, n) == 0
         else t.nodes[n].status != Waiting
  {
    var nodes := WithRecords(g, s.nodes);
    if Terminal(s.status) || g.nodes == [] || n !in ReadySet(g, nodes) {
      NotDispatched(g, s, n);
      assert n !in s.nodes ==> Outstanding(s, n) == 0;
    } else {
      assert n !in s.nodes || s.nodes[n].status == Pending;
      assert n in s.nodes || Outstanding(s, n) == 0;
    }
  }

  lemma {:induction false} RunsKinds(g: Graph, s: RunState, steps: seq<Step>, t: RunState)
    requires Inv(g, s) && Labelled(g, s) && KindsKept(s) && Runs(g, s, steps, t)
    ensures Labelled(g, t) && KindsKept(t)
    decreases |steps|
  {
    if steps == [] {
    } else {
      KindsStep(g, s, steps[0]);
      StepInv(g, s, steps[0]);
      RunsKinds(g, Apply(g, s, steps[0]), steps[1..], t);
    }
  }

  /** In every run from a fresh state an entry marked as approval is never executed, and an entry that is
      not never waits for a person. The first entry of an id counts. */
  lemma ApprovalWaits(g: Graph, s: RunState, steps: seq<Step>, t: RunState, i: nat)
    requires Fresh(g, s) && Runs(g, s, steps, t) && IsFirst(g, i)
    ensures g.nodes[i].isApproval ==>
      t.queued[g.nodes[i].id] == 0 && t.active[g.nodes[i].id] == 0 &&
      (g.nodes[i].id in t.nodes ==> t.nodes[g.nodes[i].id].status != Running)
    ensures !g.nodes[i].isApproval && g.nodes[i].id in t.nodes ==> t.nodes[g.nodes[i].id].status != Waiting
  {
    LabelledWaits(g, s, steps, t, i);
  }

  /** The same from any initial records that carry the right mark. */
  lemma LabelledWaits(g: Graph, s: RunState, steps: seq<Step>, t: RunState, i: nat)
    requires Init(g, s) && Labelled(g, s) && Runs(g, s, steps, t) && IsFirst(g, i)
    ensures g.nodes[i].isApproval ==>
      t.queued[g.nodes[i].id] == 0 && t.active[g.nodes[i].id] == 0 &&
      (g.nodes[i].id in t.nodes ==> t.nodes[g.nodes[i].id].status != Running)
    ensures !g.nodes[i].isApproval && g.nodes[i].id in t.nodes ==> t.nodes[g.nodes[i].id].status != Waiting
  {
    var n := g.nodes[i].id;
    InitInv(g, s);
    RunsInv(g, s, steps, t);
    RunsKinds(g, s, steps, t);
    FirstDecides(g, i);
    assert n !in t.nodes ==> Outstanding(t, n) == 0;
  }

  /******* How often a failing node is tried *******/

  /** A worker that has started its body once more than it was retried, unless the next try is queued. */
  ghost predicate TriesMatch(g: Graph, s: RunState, n: NodeId, tries: nat) {
    s.status != RunCancelled ==>
      && (tries > 0 ==> n in s.nodes && s.nodes[n].status != Pending)
      && (n in s.nodes && s.nodes[n].status !in {Pending, Skipped} && !s.nodes[n].isApproval ==>
            tries + s.queued[n] == s.nodes[n].retries + 1)
      && (n in s.nodes && s.nodes[n].status == Pending ==> s.nodes[n].retries == 0 && tries == 0)
      && (n in s.nodes && s.nodes[n].status == Failed && !s.nodes[n].isApproval ==>
            s.nodes[n].retries == RetryLimit(g, n))
  }

  function OneTry(s: RunState, step: Step, n: NodeId): nat {
    if step == Start(n) && s.status != RunCancelled then 1 else 0
  }

  lemma TriesStep(g: Graph, s: RunState, step: Step, n: NodeId, tries: nat)
    requires Inv(g, s) && KindsKept(s) && Enabled(g, s, step) && TriesMatch(g, s, n, tries)
    ensures TriesMatch(g, Apply(g, s, step), n, tries + OneTry(s, step, n))
  {
    if step == Advance {
      AdvanceTries(g, s, n, tries);
    } else if Local(step) && step.node != n {
      OthersUntouched(g, s, step, n);
    } else if Local(step) {
      OwnTries(g, s, step, tries);
    }
  }

  lemma OwnTries(g: Graph, s: RunState, step: Step, tries: nat)
    requires Inv(g, s) && KindsKept(s) && Enabled(g, s, step) && Local(step) && TriesMatch(g, s, step.node, tries)
    ensures TriesMatch(g, Apply(g, s, step), step.node, tries + OneTry(s, step, step.node))
  {
    var n := step.node;
    MessageMoves(s.queued, n);
    assert step.Start? || step.Finish? ==> Outstanding(s, n) == 1;
    assert s.nodes[n].retries <= RetryLimit(g, n);
  }

  lemma AdvanceTries(g: Graph, s: RunState, n: NodeId, tries: nat)
    requires Inv(g, s) && s.advances > 0 && TriesMatch(g, s, n, tries)
    ensures TriesMatch(g, Apply(g, s, Advance), n, tries)
  {
    var nodes := WithRecords(g, s.nodes);
    if Terminal(s.status) || g.nodes == [] || n !in ReadySet(g, nodes) {
      NotDispatched(g, s, n);
    } else {
      assert n !in s.nodes || s.nodes[n].status == Pending;
      assert Outstanding(s, n) == 0;
    }
  }

  lemma {:induction false} RunsTries(g: Graph, s: RunState, steps: seq<Step>, t: RunState, n: NodeId, tries: nat)
    requires Inv(g, s) && Labelled(g, s) && KindsKept(s) && TriesMatch(g, s, n, tries) && Runs(g, s, steps, t)
    ensures TriesMatch(g, t, n, tries + BodyStarts(g, s, steps, n))
    decreases |steps|
  {
    if steps == [] {
    } else {
      var m := Apply(g, s, steps[0]);
      TriesStep(g, s, steps[0], n, tries);
      KindsStep(g, s, steps[0]);
      StepInv(g, s, steps[0]);
      RunsTries(g, m, steps[1..], t, n, tries + OneTry(s, steps[0], n));
    }
  }

  /** In a run that was not stopped, a node that is no approval fails only after all its retries: its body
      was entered exactly once more than the entry's `max_retries` allows it to be repeated. */
  lemma {:induction false} FailsAfterAllRetries(g: Graph, s: RunState, steps: seq<Step>, t: RunState, i: nat)
    requires Fresh(g, s) && Runs(g, s, steps, t) && t.status != RunCancelled && IsFirst(g, i)
    requires !g.nodes[i].isApproval
    requires g.nodes[i].id in t.nodes && t.nodes[g.nodes[i].id].status == Failed
    ensures BodyStarts(g, s, steps, g.nodes[i].id) == 1 + if g.nodes[i].maxRetries < 0 then 0 else g.nodes[i].maxRetries
  {
    var n := g.nodes[i].id;
    InitInv(g, s);
    RunsInv(g, s, steps, t);
    RunsKinds(g, s, steps, t);
    RunsTries(g, s, steps, t, n, 0);
    FirstDecides(g, i);
    assert Outstanding(t, n) == 0;
  }
}
