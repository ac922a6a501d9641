/** The engine, worker and API code that updates one run's rows and messages in place,
    each proved to take exactly the corresponding step of the transition system. */
module PipelineEngine {
  import opened PipelineModel

  class PipelineRun {
    const graph: Graph
    var status: RunStatus
    var nodes: map<NodeId, NodeRun>
    var advances: nat
    var queued: multiset<NodeId>
    var active: multiset<NodeId>

    constructor (graph: Graph)
      ensures this.graph == graph && Fresh(graph, State())
    {
      this.graph := graph;
      status, nodes, advances := RunPending, map[], 1;
      queued, active := multiset{}, multiset{};
    }

    function State(): RunState
      reads this
    {
      RunState(status, nodes, advances, queued, active)
    }

    /** One wake-up of the scheduler. */
    method AdvanceEngine()
      requires advances > 0
      modifies this
      ensures State() == Apply(graph, old(State()), Advance)
    {
      advances := advances - 1;
      if Terminal(status) {
        return;
      }
      if graph.nodes == [] {
        status := RunFailed;
        return;
      }
      ghost var was := State();
      CreateMissingRecords();
      if status == RunPending {
        status := RunRunning;
      }
      assert State() == was.(status := RunRunning, nodes := WithRecords(graph, was.nodes));
      var ready := FindReady();
      var hasActive := Has(nodes, Running) || Has(nodes, Waiting);
      if ready != {} {
        Dispatch(ready);
      } else if !hasActive {
        DecideFinalStatus();
      }
      assert State() == AdvanceBody(graph, was);
    }

    /** No node is ready or active: the node records decide the verdict. */
    method DecideFinalStatus()
      modifies this`status
      ensures status == FinalStatus(nodes)
    {
      var hasFailed, hasCancelled, hasPending := Has(nodes, Failed), Has(nodes, Cancelled), Has(nodes, Pending);
      if hasFailed || (hasPending && !hasCancelled) {
        status := RunFailed;
      } else if hasCancelled {
        status := RunCancelled;
      } else {
        status := RunSuccess;
      }
    }

    /** Inserts a pending record for every configured node without one; a repeated id is ignored. */
    method CreateMissingRecords()
      modifies this`nodes
      ensures nodes == WithRecords(graph, old(nodes))
    {
      ghost var before := nodes;
      for i := 0 to |graph.nodes|
        invariant nodes.Keys == before.Keys + (set c | c in graph.nodes[..i] :: c.id)
        invariant forall n | n in nodes ::
          nodes[n] == if n in before then before[n] else NodeRun(Pending, ConfigOf(graph.nodes, n).isApproval, 0)
      {
        var c := graph.nodes[i];
        assert graph.nodes[..i + 1] == graph.nodes[..i] + [c];
        if c.id !in nodes {
          FirstConfig(graph.nodes, i);
          nodes := nodes[c.id := NodeRun(Pending, c.isApproval, 0)];
        }
      }
      assert graph.nodes[..|graph.nodes|] == graph.nodes;
    }

    /** The pending nodes whose incoming edges all come from a node that succeeded or was skipped. */
    method FindReady() returns (ready: set<NodeId>)
      ensures ready == ReadySet(graph, nodes)
    {
      ready := {};
      var todo := nodes.Keys;
      while todo != {}
        invariant todo <= nodes.Keys
        invariant ready == set n | n in nodes && n !in todo && Ready(graph, nodes, n)
        decreases todo
      {
        var n :| n in todo;
        if nodes[n].status == Pending {
          var allUpstreamSuccess := true;
          for i := 0 to |graph.edges|
            invariant allUpstreamSuccess
            invariant forall e | e in graph.edges[..i] && e.target == n :: Done(nodes, e.source)
          {
            if graph.edges[i].target == n && !Done(nodes, graph.edges[i].source) {
              allUpstreamSuccess := false;
              break;
            }
          }
          if allUpstreamSuccess {
            ready := ready + {n};
          }
        }
        todo := todo - {n};
      }
    }

    /** Approval nodes wait for a person, all others get an execute message. */
    method Dispatch(ready: set<NodeId>)
      requires ready <= nodes.Keys
      modifies this`nodes, this`queued
      ensures nodes == Dispatched(old(nodes), ready)
      ensures queued == old(queued) + multiset(Workers(old(nodes), ready))
    {
      ghost var before := nodes;
      var todo := ready;
      while todo != {}
        invariant todo <= ready
        invariant nodes == Dispatched(before, ready - todo)
        invariant queued == old(queued) + multiset(Workers(before, ready - todo))
        decreases todo
      {
        var n :| n in todo;
        DispatchOne(before, ready - todo, n);
        assert ready - (todo - {n}) == ready - todo + {n};
        if nodes[n].isApproval {
          nodes := nodes[n := nodes[n].(status := Waiting)];
        } else {
          nodes := nodes[n := nodes[n].(status := Running)];
          queued := queued + multiset{n};
        }
        todo := todo - {n};
      }
      assert ready - todo == ready;
    }

    /** A worker takes an execute message: it gives up when the run was cancelled. */
    method StartNode(n: NodeId)
      requires n in queued && n in nodes
      modifies this
      ensures State() == Apply(graph, old(State()), Start(n))
      ensures nodes[n] == old(nodes[n]).(status := if status == RunCancelled then Failed else Running)
      ensures active == old(active) + if status == RunCancelled then multiset{} else multiset{n}
    {
      queued := queued - multiset{n};
      if status == RunCancelled {
        nodes := nodes[n := nodes[n].(status := Failed)];
        return;
      }
      nodes := nodes[n := nodes[n].(status := Running)];
      active := active + multiset{n};
    }

    /** The node body has ended: record it, and retry, or wake the scheduler. */
    method FinishNode(n: NodeId, success: bool)
      requires n in active && n in nodes
      modifies this
      ensures State() == Apply(graph, old(State()), Finish(n, success))
    {
      active := active - multiset{n};
      if !success && nodes[n].retries < ConfigOf(graph.nodes, n).maxRetries {
        ScheduleRetry(n);
      } else {
        ghost var verdict := if success then Success else Failed;
        SaveStatus(n, if success then Success else Failed);
        advances := advances + 1;
        assert State() ==
          old(State()).(active := active, nodes := SetStatus(old(nodes), n, verdict), advances := advances);
      }
    }

    method SaveStatus(n: NodeId, nodeStatus: NodeStatus)
      requires n in nodes
      modifies this`nodes
      ensures nodes == SetStatus(old(nodes), n, nodeStatus)
    {
      nodes := nodes[n := nodes[n].(status := nodeStatus)];
    }

    /** The failed node is shown as running again and its execute message is sent once more. */
    method ScheduleRetry(n: NodeId)
      requires n in nodes
      modifies this`nodes, this`queued
      ensures queued == old(queued) + multiset{n}
      ensures nodes == old(nodes)[n := old(nodes[n]).(status := Running, retries := old(nodes[n]).retries + 1)]
    {
      nodes := nodes[n := nodes[n].(status := Running, retries := nodes[n].retries + 1)];
      queued := queued + multiset{n};
    }

    method ApproveNode(n: NodeId, pass: bool) returns (accepted: bool)
      requires n in nodes
      modifies this
      ensures accepted <==> old(nodes[n].status) == Waiting
      ensures State() == if accepted then Apply(graph, old(State()), Approve(n, pass)) else old(State())
      ensures accepted ==> nodes[n] == old(nodes[n]).(status := if pass then Success else Failed)
      ensures accepted ==> advances == old(advances) + 1
    {
      if nodes[n].status != Waiting {
        return false;
      }
      nodes := nodes[n := nodes[n].(status := if pass then Success else Failed)];
      advances := advances + 1;
      return true;
    }

    /** Cancels the run and every unfinished node; `survivors` are the running executions
        the kill signal does not reach. */
    method StopRun(survivors: multiset<NodeId>) returns (accepted: bool)
      requires survivors <= active
      modifies this
      ensures accepted <==> old(status) in {RunPending, RunRunning}
      ensures State() == if accepted then Apply(graph, old(State()), Stop(survivors)) else old(State())
      ensures accepted ==> status == RunCancelled && nodes.Keys == old(nodes).Keys && active == survivors
      ensures accepted ==> forall m :: m in nodes ==>
        nodes[m] == if old(nodes)[m].status in {Success, Failed, Skipped} then old(nodes)[m]
                    else old(nodes)[m].(status := Cancelled)
    {
      if status !in {RunPending, RunRunning} {
        return false;
      }
      status := RunCancelled;
      active := survivors;
      var unfinished := set n | n in nodes && nodes[n].status !in {Success, Failed, Skipped};
      ghost var before := nodes;
      var todo := unfinished;
      while todo != {}
        invariant todo <= unfinished && nodes.Keys == before.Keys
        invariant forall n | n in nodes ::
          nodes[n] == if n in unfinished - todo then before[n].(status := Cancelled) else before[n]
        invariant status == RunCancelled && active == survivors
        invariant advances == old(advances) && queued == old(queued)
        decreases todo
      {
        var n :| n in todo;
        nodes := nodes[n := nodes[n].(status := Cancelled)];
        todo := todo - {n};
      }
      return true;
    }
  }

  lemma DispatchOne(nodes: map<NodeId, NodeRun>, sent: set<NodeId>, n: NodeId)
    requires n in nodes && n !in sent
    ensures Dispatched(nodes, sent + {n}) ==
            Dispatched(nodes, sent)[n := nodes[n].(status := if nodes[n].isApproval then Waiting else Running)]
    ensures multiset(Workers(nodes, sent + {n})) ==
            multiset(Workers(nodes, sent)) + if nodes[n].isApproval then multiset{} else multiset{n}
  {
  }
}
