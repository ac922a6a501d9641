/** What every run of the pipeline engine keeps, whatever the graph and the interleaving,
    with Stop and retries included. */
module PipelineSafety {
  import opened PipelineModel

  function Outstanding(s: RunState, n: NodeId): nat {
    s.queued[n] + s.active[n]
  }

  /** The node was dispatched at some time and was not cancelled since. */
  predicate Started(s: RunState, n: NodeId) {
    (n in s.nodes && s.nodes[n].status in {Running, Waiting, Success, Failed}) || Outstanding(s, n) > 0
  }

  /** Every edge into `n` comes from a recorded node that succeeded or was skipped. */
  ghost predicate SourcesDone(g: Graph, s: RunState, n: NodeId) {
    forall m :: EdgeInto(g, m, n) ==> Done(s.nodes, m)
  }

  /** Messages: at most one per node, only for recorded nodes, and, until the run is
      cancelled, exactly for the nodes shown as running. */
  ghost predicate MessagesMatch(s: RunState) {
    && (forall n :: Outstanding(s, n) <= 1)
    && (forall n :: Outstanding(s, n) > 0 ==> n in s.nodes && s.nodes[n].status in {Running, Cancelled})
    && (s.status != RunCancelled ==>
        forall n :: n in s.nodes ==>
          s.nodes[n].status != Cancelled && (s.nodes[n].status == Running <==> Outstanding(s, n) == 1))
  }

  /** No lost wake-up: an unfinished run has a queued advance, a node with its execute
      message outstanding, or a node waiting for approval. */
  ghost predicate Awake(s: RunState) {
    !Terminal(s.status) ==>
      || s.advances > 0
      || (exists n :: Outstanding(s, n) == 1 && n in s.nodes && s.nodes[n].status == Running)
      || Has(s.nodes, Waiting)
  }

  ghost predicate Causal(g: Graph, s: RunState) {
    forall n :: Started(s, n) ==> SourcesDone(g, s, n)
  }

  ghost predicate BoundedRetries(g: Graph, s: RunState) {
    forall n :: n in s.nodes ==> n in Ids(g) && s.nodes[n].retries <= RetryLimit(g, n)
  }

  /** Nothing starts before the run does. A run that ended by itself has nothing outstanding, has
      every node recorded and none ready, and carries the status its node records call for. */
  ghost predicate Settled(g: Graph, s: RunState) {
    && (s.status == RunPending ==> s.advances > 0 && forall n :: !Started(s, n))
    && (s.status in {RunSuccess, RunFailed} ==>
        (forall n :: Outstanding(s, n) == 0) && !Has(s.nodes, Waiting))
    && (s.status in {RunSuccess, RunFailed} ==>
        && s.nodes.Keys == Ids(g)
        && (forall n :: !Ready(g, s.nodes, n))
        && s.status == if g.nodes == [] then RunFailed else FinalStatus(s.nodes))
  }

  ghost predicate Inv(g: Graph, s: RunState) {
    MessagesMatch(s) && Awake(s) && Causal(g, s) && BoundedRetries(g, s) && Settled(g, s)
  }

  lemma InitInv(g: Graph, s: RunState)
    requires Init(g, s)
    ensures Inv(g, s)
  {
  }

  /******* One step *******/

  /** Creating the missing records changes no message, and nothing that was started. */
  lemma RecordsInv(g: Graph, s: RunState, t: RunState)
    requires Inv(g, s) && !Terminal(s.status)
    requires t == s.(status := RunRunning, nodes := WithRecords(g, s.nodes), advances := t.advances)
    requires Awake(t)
    ensures Inv(g, t) && t.nodes.Keys == Ids(g)
  {
    forall n ensures Outstanding(t, n) == Outstanding(s, n) {}
    forall n | Started(t, n) ensures SourcesDone(g, t, n) { assert Started(s, n); }
  }

  /** `t` is `s` with the nodes of `ready` set to waiting or running. */
  ghost predicate IsDispatch(g: Graph, s: RunState, t: RunState, ready: set<NodeId>) {
    && t.status == s.status && t.advances == s.advances && t.nodes.Keys == s.nodes.Keys
    && (forall n :: n in ready <==> n in s.nodes && Ready(g, s.nodes, n))
    && (forall n :: n in s.nodes && n !in ready ==> t.nodes[n] == s.nodes[n] && Outstanding(t, n) == Outstanding(s, n))
    && (forall n :: n !in s.nodes ==> Outstanding(t, n) == Outstanding(s, n))
    && (forall n :: n in ready ==>
          && t.nodes[n].retries == s.nodes[n].retries
          && t.nodes[n].status == (if s.nodes[n].isApproval then Waiting else Running)
          && Outstanding(t, n) == Outstanding(s, n) + if s.nodes[n].isApproval then 0 else 1)
  }

  lemma DispatchShape(g: Graph, s: RunState, ready: set<NodeId>, t: RunState)
    requires ready == ReadySet(g, s.nodes)
    requires t == s.(nodes := Dispatched(s.nodes, ready), queued := s.queued + multiset(Workers(s.nodes, ready)))
    ensures IsDispatch(g, s, t, ready)
  {
  }

  lemma DispatchInv(g: Graph, s: RunState, t: RunState, ready: set<NodeId>)
    requires Inv(g, s) && s.status == RunRunning && ready != {} && IsDispatch(g, s, t, ready)
    ensures Inv(g, t)
  {
    forall n | n in ready ensures Outstanding(s, n) == 0 { assert s.nodes[n].status == Pending; }
    forall m | Done(s.nodes, m) ensures Done(t.nodes, m) { assert m !in ready; }
    forall n | Started(t, n) ensures SourcesDone(g, t, n) {
      if n in ready {
        forall m | EdgeInto(g, m, n) ensures Done(t.nodes, m) {
          assert Edge(m, n) in g.edges && Edge(m, n).target == n;
        }
      } else {
        assert Started(s, n);
      }
    }
    var n :| n in ready;
    assert t.nodes[n].status == Waiting || Outstanding(t, n) == 1;
  }

  /** A wake-up of an ended run, or of a run over an empty graph. */
  lemma NothingToDoInv(g: Graph, s: RunState)
    requires Inv(g, s) && s.advances > 0 && (Terminal(s.status) || g.nodes == [])
    ensures Inv(g, Apply(g, s, Advance))
  {
    var t := Apply(g, s, Advance);
    forall n ensures Outstanding(t, n) == Outstanding(s, n) {}
    forall n | Started(t, n) ensures SourcesDone(g, t, n) { assert Started(s, n); }
  }

  lemma AdvanceInv(g: Graph, s: RunState)
    requires Inv(g, s) && s.advances > 0
    ensures Inv(g, Apply(g, s, Advance))
  {
    if Terminal(s.status) || g.nodes == [] {
      NothingToDoInv(g, s);
    } else {
      var nodes := WithRecords(g, s.nodes);
      var r := s.(status := RunRunning, nodes := nodes);
      RecordsInv(g, s, r);
      if ReadySet(g, nodes) != {} {
        AdvanceDispatches(g, r, Apply(g, s, Advance));
      } else if Has(nodes, Running) || Has(nodes, Waiting) {
        AdvanceWaits(g, r, Apply(g, s, Advance));
      } else {
        forall n ensures !Ready(g, nodes, n) { assert n !in ReadySet(g, nodes); }
        FinishRunInv(g, r, Apply(g, s, Advance));
      }
    }
  }

  /** Some nodes are ready. */
  lemma AdvanceDispatches(g: Graph, r: RunState, t: RunState)
    requires Inv(g, r) && r.status == RunRunning && ReadySet(g, r.nodes) != {}
    requires var ready := ReadySet(g, r.nodes);
      t == r.(nodes := Dispatched(r.nodes, ready), queued := r.queued + multiset(Workers(r.nodes, ready)),
              advances := t.advances)
    ensures Inv(g, t)
  {
    var ready, d := ReadySet(g, r.nodes), t.(advances := r.advances);
    DispatchShape(g, r, ready, d);
    DispatchInv(g, r, d, ready);
    var n :| n in ready;
    assert t.nodes[n].status == Waiting || Outstanding(t, n) == 1;
    DropAdvance(g, d, t);
  }

  /** Nothing is ready, but some node is running or waiting. */
  lemma AdvanceWaits(g: Graph, r: RunState, t: RunState)
    requires Inv(g, r) && r.status == RunRunning && (Has(r.nodes, Running) || Has(r.nodes, Waiting))
    requires t == r.(advances := t.advances)
    ensures Inv(g, t)
  {
    if Has(r.nodes, Running) {
      var n :| n in r.nodes && r.nodes[n].status == Running;
      assert Outstanding(t, n) == Outstanding(r, n) == 1;
    }
    DropAdvance(g, r, t);
  }

  /** Consuming an advance message is harmless while something else keeps the run awake. */
  lemma DropAdvance(g: Graph, s: RunState, t: RunState)
    requires Inv(g, s) && s.status == RunRunning && t == s.(advances := t.advances) && Awake(t)
    ensures Inv(g, t)
  {
    forall n ensures Outstanding(t, n) == Outstanding(s, n) && Started(t, n) == Started(s, n) {}
  }

  lemma FinishRunInv(g: Graph, s: RunState, t: RunState)
    requires Inv(g, s) && s.status == RunRunning && g.nodes != [] && s.nodes.Keys == Ids(g)
    requires !Has(s.nodes, Running) && !Has(s.nodes, Waiting)
    requires forall n :: !Ready(g, s.nodes, n)
    requires t == s.(status := FinalStatus(s.nodes), advances := t.advances)
    ensures Inv(g, t)
  {
    forall n ensures Outstanding(t, n) == Outstanding(s, n) == 0 && Started(t, n) == Started(s, n) {
      assert !(n in s.nodes && s.nodes[n].status == Running);
    }
  }

  /** A change confined to one node that had already been dispatched. */
  lemma LocalChange(g: Graph, s: RunState, t: RunState, n: NodeId)
    requires Inv(g, s) && n in s.nodes && Started(s, n)
    requires s.nodes[n].status in {Running, Waiting, Cancelled}
    requires t.status == s.status && t.nodes.Keys == s.nodes.Keys
    requires forall m :: m != n ==> Outstanding(t, m) == Outstanding(s, m)
    requires forall m :: m in s.nodes && m != n ==> t.nodes[m] == s.nodes[m]
    requires Outstanding(t, n) <= 1 && (Outstanding(t, n) > 0 ==> t.nodes[n].status == Running)
    requires s.status != RunCancelled ==>
      t.nodes[n].status in {Running, Success, Failed} &&
      (t.nodes[n].status == Running ==> Outstanding(t, n) == 1) &&
      (t.nodes[n].status != Running ==> t.advances > 0)
    requires t.nodes[n].retries <= RetryLimit(g, n)
    ensures Inv(g, t)
  {
    assert s.status != RunCancelled ==> Outstanding(s, n) > 0 || Has(s.nodes, Waiting);
    forall m | Started(t, m) ensures SourcesDone(g, t, m) {
      assert Started(s, m);
      forall k | EdgeInto(g, k, m) ensures Done(t.nodes, k) { assert Done(s.nodes, k); }
    }
  }

  /** Removing or adding one message changes the count of that node only. */
  lemma MessageMoves(q: multiset<NodeId>, n: NodeId)
    ensures (q + multiset{n})[n] == q[n] + 1
    ensures n in q ==> (q - multiset{n})[n] == q[n] - 1
    ensures forall m :: m != n ==> (q + multiset{n})[m] == q[m] && (q - multiset{n})[m] == q[m]
  {
  }

  lemma StartInv(g: Graph, s: RunState, n: NodeId)
    requires Inv(g, s) && Enabled(g, s, Start(n))
    ensures Inv(g, Apply(g, s, Start(n)))
  {
    MessageMoves(s.queued, n);
    MessageMoves(s.active, n);
    assert Outstanding(s, n) == 1;
    LocalChange(g, s, Apply(g, s, Start(n)), n);
  }

  lemma FinishInv(g: Graph, s: RunState, n: NodeId, ok: bool)
    requires Inv(g, s) && Enabled(g, s, Finish(n, ok))
    ensures Inv(g, Apply(g, s, Finish(n, ok)))
  {
    MessageMoves(s.queued, n);
    MessageMoves(s.active, n);
    assert Outstanding(s, n) == 1;
    LocalChange(g, s, Apply(g, s, Finish(n, ok)), n);
  }

  lemma ApproveInv(g: Graph, s: RunState, n: NodeId, pass: bool)
    requires Inv(g, s) && Enabled(g, s, Approve(n, pass))
    ensures Inv(g, Apply(g, s, Approve(n, pass)))
  {
    var t := Apply(g, s, Approve(n, pass));
    forall m ensures Outstanding(t, m) == Outstanding(s, m) {}
    assert Outstanding(s, n) == 0;
    LocalChange(g, s, t, n);
  }

  lemma StopInv(g: Graph, s: RunState, survivors: multiset<NodeId>)
    requires Inv(g, s) && Enabled(g, s, Stop(survivors))
    ensures Inv(g, Apply(g, s, Stop(survivors)))
  {
    var t := Apply(g, s, Stop(survivors));
    forall m ensures Outstanding(t, m) <= Outstanding(s, m) {}
    forall m | Started(t, m) ensures SourcesDone(g, t, m) {
      assert Started(s, m);
      forall k | EdgeInto(g, k, m) ensures Done(t.nodes, k) { assert Done(s.nodes, k); }
    }
  }

  lemma StepInv(g: Graph, s: RunState, step: Step)
    requires Inv(g, s) && Enabled(g, s, step)
    ensures Inv(g, Apply(g, s, step))
  {
    match step
    case Advance => AdvanceInv(g, s);
    case Start(n) => StartInv(g, s, n);
    case Finish(n, ok) => FinishInv(g, s, n, ok);
    case Approve(n, pass) => ApproveInv(g, s, n, pass);
    case Stop(survivors) => StopInv(g, s, survivors);
  }

  lemma {:induction false} RunsInv(g: Graph, s: RunState, steps: seq<Step>, t: RunState)
    requires Inv(g, s) && Runs(g, s, steps, t)
    ensures Inv(g, t)
    decreases |steps|
  {
    if steps == [] {
    } else {
      StepInv(g, s, steps[0]);
      RunsInv(g, Apply(g, s, steps[0]), steps[1..], t);
    }
  }

  /******* Whole runs *******/

  /** No lost wake-up, over every run: an unfinished run always has something that will move it,
      no node ever has two execute messages, and without Stop the nodes with a message are
      exactly the running ones. */
  lemma {:induction false} NoLostWakeUp(g: Graph, s: RunState, steps: seq<Step>, t: RunState)
    requires Init(g, s) && Runs(g, s, steps, t)
    ensures Terminal(t.status) || t.advances > 0 || Has(t.nodes, Waiting) ||
            exists n :: Outstanding(t, n) == 1 && n in t.nodes && t.nodes[n].status == Running
    ensures forall n :: Outstanding(t, n) <= 1
    ensures t.status != RunCancelled ==>
              forall n :: Outstanding(t, n) == 1 <==> n in t.nodes && t.nodes[n].status == Running
    ensures t.status in {RunSuccess, RunFailed} ==> t.queued == t.active == multiset{}
  {
    InitInv(g, s);
    RunsInv(g, s, steps, t);
    if t.status in {RunSuccess, RunFailed} {
      forall n ensures t.queued[n] == 0 && t.active[n] == 0 { assert Outstanding(t, n) == 0; }
    }
  }

  /** Causal safety, over every run with Stop and retries: whatever was dispatched has every
      incoming edge's source recorded and done. */
  lemma {:induction false} CausalSafety(g: Graph, s: RunState, steps: seq<Step>, t: RunState, m: NodeId, n: NodeId)
    requires Init(g, s) && Runs(g, s, steps, t)
    requires Edge(m, n) in g.edges
    requires n in t.nodes && t.nodes[n].status in {Running, Waiting, Success, Failed}
    ensures m in t.nodes && t.nodes[m].status in {Success, Skipped}
  {
    InitInv(g, s);
    RunsInv(g, s, steps, t);
    assert Started(t, n) && EdgeInto(g, m, n);
  }

  predicate Local(step: Step) {
    step.Start? || step.Finish? || step.Approve?
  }

  /** Start, Finish and Approve leave every other node's record and messages alone. */
  lemma OthersUntouched(g: Graph, s: RunState, step: Step, m: NodeId)
    requires Enabled(g, s, step) && Local(step) && m != step.node
    ensures var t := Apply(g, s, step);
      && t.queued[m] == s.queued[m] && t.active[m] == s.active[m]
      && (m in t.nodes <==> m in s.nodes) && (m in s.nodes ==> t.nodes[m] == s.nodes[m])
  {
  }

  /** The scheduler only creates records and dispatches pending ones. */
  lemma AdvanceStatus(g: Graph, s: RunState, n: NodeId)
    requires s.advances > 0 && n in Apply(g, s, Advance).nodes
    ensures var r := Apply(g, s, Advance).nodes[n];
      || (n in s.nodes && r == s.nodes[n])
      || (r.status in {Pending, Waiting, Running} && (n in s.nodes ==> s.nodes[n].status == Pending))
  {
  }

  lemma DoneStep(g: Graph, s: RunState, step: Step, m: NodeId)
    requires MessagesMatch(s) && Enabled(g, s, step) && Done(s.nodes, m)
    ensures var t := Apply(g, s, step); Done(t.nodes, m) && t.nodes[m] == s.nodes[m]
  {
    assert Outstanding(s, m) == 0;
    if step == Advance {
      AdvanceStatus(g, s, m);
    } else if Local(step) {
      assert step.node != m;
      OthersUntouched(g, s, step, m);
    }
  }

  /** A node that succeeded or was skipped never changes again. */
  lemma {:induction false} DoneForever(g: Graph, s: RunState, steps: seq<Step>, t: RunState, m: NodeId)
    requires Inv(g, s) && Runs(g, s, steps, t) && Done(s.nodes, m)
    ensures m in t.nodes && t.nodes[m] == s.nodes[m]
    decreases |steps|
  {
    if steps == [] {
    } else {
      var s' := Apply(g, s, steps[0]);
      assert Done(s'.nodes, m) && s'.nodes[m] == s.nodes[m] by { DoneStep(g, s, steps[0], m); }
      assert Inv(g, s') by { StepInv(g, s, steps[0]); }
      DoneForever(g, s', steps[1..], t, m);
    }
  }

  /** A run that has ended keeps its status under every later message and request. */
  lemma {:induction false} EndedForever(g: Graph, s: RunState, steps: seq<Step>, t: RunState)
    requires Terminal(s.status) && Runs(g, s, steps, t)
    ensures t.status == s.status
    decreases |steps|
  {
    if steps == [] {
    } else {
      EndedForever(g, Apply(g, s, steps[0]), steps[1..], t);
    }
  }

  lemma OthersStartNothing(g: Graph, s: RunState, step: Step, n: NodeId)
    requires Enabled(g, s, step) && step != Advance
    requires Started(Apply(g, s, step), n)
    ensures Started(s, n)
  {
    if Local(step) && step.node != n {
      OthersUntouched(g, s, step, n);
    } else if step.Stop? {
      assert Outstanding(Apply(g, s, step), n) <= Outstanding(s, n);
    }
  }

  lemma AdvanceStarts(g: Graph, s: RunState, n: NodeId)
    requires s.advances > 0 && !Started(s, n) && Started(Apply(g, s, Advance), n)
    ensures Ready(g, WithRecords(g, s.nodes), n)
  {
  }

  /** Only a scheduler wake-up starts a node, and only once its sources are done. */
  lemma FirstStart(g: Graph, s: RunState, step: Step, n: NodeId)
    requires Inv(g, s) && Enabled(g, s, step) && !Started(s, n) && Started(Apply(g, s, step), n)
    ensures step == Advance && SourcesDone(g, s, n) && n in Ids(g)
  {
    if step != Advance {
      OthersStartNothing(g, s, step, n);
    } else {
      AdvanceStarts(g, s, n);
      forall m | EdgeInto(g, m, n) ensures Done(s.nodes, m) {
        assert Edge(m, n) in g.edges && Edge(m, n).target == n;
        assert Done(WithRecords(g, s.nodes), m);
      }
    }
  }

  /** Start order extends the graph order: for every started node the run passes through a
      scheduler wake-up before which the node had not started although all its sources were
      already done. */
  lemma {:induction false} StartOrder(g: Graph, s: RunState, steps: seq<Step>, t: RunState, n: NodeId)
    returns (k: nat, u: RunState)
    requires Inv(g, s) && Runs(g, s, steps, t) && !Started(s, n) && Started(t, n)
    ensures k < |steps| && Runs(g, s, steps[..k], u) && Runs(g, u, steps[k..], t)
    ensures steps[k] == Advance && !Started(u, n)
    ensures forall m :: Edge(m, n) in g.edges ==> Done(u.nodes, m)
    decreases |steps|
  {
    var s' := Apply(g, s, steps[0]);
    if Started(s', n) {
      FirstStart(g, s, steps[0], n);
      k, u := 0, s;
      forall m | Edge(m, n) in g.edges ensures Done(u.nodes, m) { assert EdgeInto(g, m, n); }
      assert steps[k..] == steps;
    } else {
      StepInv(g, s, steps[0]);
      k, u := StartOrder(g, s', steps[1..], t, n);
      assert steps[..k + 1][1..] == steps[1..][..k];
      assert steps[k + 1..] == steps[1..][k..];
      k := k + 1;
    }
  }

  /******* Stopped runs *******/

  /** Once a run is cancelled no node is pending or waiting, and one shown as running again has the
      message of a retry that will find the run cancelled. */
  ghost predicate StoppedShape(s: RunState) {
    s.status == RunCancelled ==>
      forall n :: n in s.nodes ==>
        s.nodes[n].status !in {Pending, Waiting} && (s.nodes[n].status == Running ==> Outstanding(s, n) > 0)
  }

  lemma StoppedStep(g: Graph, s: RunState, step: Step)
    requires Inv(g, s) && StoppedShape(s) && Enabled(g, s, step)
    ensures StoppedShape(Apply(g, s, step))
  {
    var t := Apply(g, s, step);
    if Local(step) && s.status == RunCancelled {
      forall n | n in t.nodes
        ensures t.nodes[n].status !in {Pending, Waiting} && (t.nodes[n].status == Running ==> Outstanding(t, n) > 0)
      {
        if n != step.node { OthersUntouched(g, s, step, n); }
      }
    } else if step == Advance && s.status != RunCancelled {
      assert !Has(WithRecords(g, s.nodes), Cancelled);
    }
  }

  lemma {:induction false} RunsStopped(g: Graph, s: RunState, steps: seq<Step>, t: RunState)
    requires Inv(g, s) && StoppedShape(s) && Runs(g, s, steps, t)
    ensures StoppedShape(t)
    decreases |steps|
  {
    if steps == [] {
    } else {
      assert StoppedShape(Apply(g, s, steps[0])) by { StoppedStep(g, s, steps[0]); }
      assert Inv(g, Apply(g, s, steps[0])) by { StepInv(g, s, steps[0]); }
      RunsStopped(g, Apply(g, s, steps[0]), steps[1..], t);
    }
  }

  /** Stopping is effective in every run: a cancelled run has nothing pending or waiting, and when
      its last messages are gone every node is finished or cancelled. */
  lemma {:induction false} StopSettles(g: Graph, s: RunState, steps: seq<Step>, t: RunState)
    requires Init(g, s) && Runs(g, s, steps, t) && t.status == RunCancelled
    ensures !Has(t.nodes, Pending) && !Has(t.nodes, Waiting)
    ensures t.queued == t.active == multiset{} ==>
      forall n :: n in t.nodes ==> t.nodes[n].status in {Success, Failed, Skipped, Cancelled}
  {
    InitInv(g, s);
    RunsStopped(g, s, steps, t);
  }

  /** After a stop no node body begins: the running executions are among those the kill signal missed. */
  lemma {:induction false} NothingStartsAfterStop(g: Graph, s: RunState, steps: seq<Step>, t: RunState)
    requires s.status == RunCancelled && Runs(g, s, steps, t)
    ensures t.active <= s.active
    decreases |steps|
  {
    if steps == [] {
    } else {
      NothingStartsAfterStop(g, Apply(g, s, steps[0]), steps[1..], t);
    }
  }
}
