/** The result of a run does not depend on the interleaving: it is the least fixed point of
    "all sources succeeded". Cycles and unknown sources are exactly what keeps nodes out of it. */
module PipelineConfluence {
  import opened Paths
  import opened PipelineModel
  import opened PipelineSafety

  /******* The least fixed point *******/

  /** A source that lets its targets run: skipped from the start, or in `C` with a good outcome. */
  ghost predicate Opens(skipped: set<NodeId>, good: set<NodeId>, C: set<NodeId>, m: NodeId) {
    m in skipped || (m in C && m in good)
  }

  ghost predicate Unlocked(g: Graph, skipped: set<NodeId>, good: set<NodeId>, C: set<NodeId>, n: NodeId) {
    n in Ids(g) && n !in skipped && forall m :: EdgeInto(g, m, n) ==> Opens(skipped, good, C, m)
  }

  ghost predicate ClosedUnder(g: Graph, skipped: set<NodeId>, good: set<NodeId>, C: set<NodeId>) {
    forall n :: Unlocked(g, skipped, good, C, n) ==> n in C
  }

  /** The least closed set: the nodes that get to run. */
  ghost function Executed(g: Graph, skipped: set<NodeId>, good: set<NodeId>): set<NodeId> {
    set n | n in Ids(g) && forall C: set<NodeId> :: ClosedUnder(g, skipped, good, C) ==> n in C
  }

  /** It is a fixed point: a node gets to run exactly when all its sources open. */
  lemma ExecutedFixpoint(g: Graph, skipped: set<NodeId>, good: set<NodeId>, n: NodeId)
    ensures n in Executed(g, skipped, good) <==> Unlocked(g, skipped, good, Executed(g, skipped, good), n)
  {
    var X := Executed(g, skipped, good);
    ExecutedClosed(g, skipped, good);
    var F := set k | k in Ids(g) && Unlocked(g, skipped, good, X, k);
    forall k | Unlocked(g, skipped, good, F, k) ensures k in F {
      forall m | EdgeInto(g, m, k) ensures Opens(skipped, good, X, m) { assert Opens(skipped, good, F, m); }
    }
    assert ClosedUnder(g, skipped, good, F);
  }

  lemma ExecutedClosed(g: Graph, skipped: set<NodeId>, good: set<NodeId>)
    ensures ClosedUnder(g, skipped, good, Executed(g, skipped, good))
  {
  }

  /******* Runs stay inside every closed set *******/

  ghost function SkippedIn(s: RunState): set<NodeId> {
    set n | n in s.nodes && s.nodes[n].status == Skipped
  }

  /** The step reports success only for good nodes. */
  ghost predicate Sound(step: Step, good: set<NodeId>) {
    match step
    case Finish(n, ok) => ok ==> n in good
    case Approve(n, pass) => pass ==> n in good
    case _ => true
  }

  /** The step lets each node end with its fixed outcome; retries in between are free. */
  ghost predicate Honors(g: Graph, s: RunState, step: Step, good: set<NodeId>) {
    match step
    case Finish(n, ok) =>
      if ok then n in good
      else n in s.nodes && (n in good ==> s.nodes[n].retries < ConfigOf(g.nodes, n).maxRetries)
    case Approve(n, pass) => pass <==> n in good
    case Stop(_) => false
    case Advance => true
    case Start(_) => true
  }

  ghost predicate RunHonors(g: Graph, s: RunState, steps: seq<Step>, good: set<NodeId>)
    decreases |steps|
  {
    steps != [] ==>
      && Enabled(g, s, steps[0]) && Honors(g, s, steps[0], good)
      && RunHonors(g, Apply(g, s, steps[0]), steps[1..], good)
  }

  ghost predicate Within(s: RunState, skipped: set<NodeId>, good: set<NodeId>, C: set<NodeId>) {
    && (forall n :: Started(s, n) ==> n in C)
    && (forall n :: n in s.nodes && s.nodes[n].status == Success ==> n in good)
    && (forall n :: n in s.nodes ==> (s.nodes[n].status == Skipped <==> n in skipped))
    && skipped <= s.nodes.Keys
  }

  /** What one step can do to a node's status. */
  ghost predicate StatusMove(g: Graph, s: RunState, step: Step, n: NodeId, r: NodeRun) {
    && (r.status == Skipped <==> n in s.nodes && s.nodes[n].status == Skipped)
    && (r.status == Success ==>
          (n in s.nodes && s.nodes[n].status == Success) || step == Finish(n, true) || step == Approve(n, true))
    && (r.status == Failed && s.status != RunCancelled ==>
          || (n in s.nodes && s.nodes[n].status == Failed)
          || step == Approve(n, false)
          || (step == Finish(n, false) && n in s.nodes && s.nodes[n].retries >= ConfigOf(g.nodes, n).maxRetries))
  }

  lemma StatusStep(g: Graph, s: RunState, step: Step, n: NodeId)
    requires MessagesMatch(s) && Enabled(g, s, step) && n in Apply(g, s, step).nodes
    ensures StatusMove(g, s, step, n, Apply(g, s, step).nodes[n])
  {
    if step == Advance {
      AdvanceStatus(g, s, n);
    } else if Local(step) && step.node != n {
      OthersUntouched(g, s, step, n);
    } else if step.Start? || step.Finish? {
      assert Outstanding(s, n) > 0;
    }
  }

  lemma KeysGrow(g: Graph, s: RunState, step: Step)
    requires Enabled(g, s, step)
    ensures s.nodes.Keys <= Apply(g, s, step).nodes.Keys
  {
  }

  lemma WithinStep(g: Graph, s: RunState, step: Step, skipped: set<NodeId>, good: set<NodeId>, C: set<NodeId>)
    requires Inv(g, s) && Enabled(g, s, step) && Sound(step, good)
    requires ClosedUnder(g, skipped, good, C) && Within(s, skipped, good, C)
    ensures Within(Apply(g, s, step), skipped, good, C)
  {
    var t := Apply(g, s, step);
    KeysGrow(g, s, step);
    forall n | n in t.nodes
      ensures t.nodes[n].status == Skipped <==> n in skipped
      ensures t.nodes[n].status == Success ==> n in good
    {
      StatusStep(g, s, step, n);
    }
    forall n | Started(t, n) ensures n in C {
      if !Started(s, n) {
        FirstStart(g, s, step, n);
        AdvanceStarts(g, s, n);
        forall m | EdgeInto(g, m, n) ensures Opens(skipped, good, C, m) {
          assert Done(s.nodes, m);
          assert s.nodes[m].status == Success ==> Started(s, m);
        }
        assert Unlocked(g, skipped, good, C, n);
      }
    }
  }

  lemma {:induction false} RunsWithin(g: Graph, s: RunState, steps: seq<Step>, t: RunState,
                                      skipped: set<NodeId>, good: set<NodeId>, C: set<NodeId>)
    requires Inv(g, s) && Runs(g, s, steps, t) && (forall i | 0 <= i < |steps| :: Sound(steps[i], good))
    requires ClosedUnder(g, skipped, good, C) && Within(s, skipped, good, C)
    ensures Within(t, skipped, good, C)
    decreases |steps|
  {
    if steps == [] {
    } else {
      var s' := Apply(g, s, steps[0]);
      assert Within(s', skipped, good, C) by { WithinStep(g, s, steps[0], skipped, good, C); }
      assert Inv(g, s') by { StepInv(g, s, steps[0]); }
      RunsWithin(g, s', steps[1..], t, skipped, good, C);
    }
  }

  /******* Confluence *******/

  /** The invariant of a run that honors fixed outcomes. */
  ghost predicate Faithful(g: Graph, s: RunState, skipped: set<NodeId>, good: set<NodeId>) {
    && Inv(g, s) && s.status != RunCancelled
    && Within(s, skipped, good, Executed(g, skipped, good))
    && (forall n :: n in s.nodes && s.nodes[n].status == Failed ==> n !in good)
  }

  lemma FaithfulStep(g: Graph, s: RunState, step: Step, skipped: set<NodeId>, good: set<NodeId>)
    requires Faithful(g, s, skipped, good) && Enabled(g, s, step) && Honors(g, s, step, good)
    ensures Faithful(g, Apply(g, s, step), skipped, good)
  {
    var t := Apply(g, s, step);
    assert Within(t, skipped, good, Executed(g, skipped, good)) by {
      ExecutedClosed(g, skipped, good);
      WithinStep(g, s, step, skipped, good, Executed(g, skipped, good));
    }
    forall n | n in t.nodes && t.nodes[n].status == Failed ensures n !in good { StatusStep(g, s, step, n); }
    assert Inv(g, t) by { StepInv(g, s, step); }
    assert t.status != RunCancelled by { NotCancelled(g, s, step); }
  }

  lemma NotCancelled(g: Graph, s: RunState, step: Step)
    requires Inv(g, s) && Enabled(g, s, step) && s.status != RunCancelled && !step.Stop?
    ensures Apply(g, s, step).status != RunCancelled
  {
  }

  /** Only Stop cancels a run: the engine's own `cancelled` verdict is never reached, because
      only Stop makes cancelled nodes and it ends the run. */
  lemma {:induction false} OnlyStopCancels(g: Graph, s: RunState, steps: seq<Step>, t: RunState)
    requires Inv(g, s) && s.status != RunCancelled && Runs(g, s, steps, t)
    requires forall i :: 0 <= i < |steps| ==> !steps[i].Stop?
    ensures t.status != RunCancelled
    decreases |steps|
  {
    if steps == [] {
    } else {
      NotCancelled(g, s, steps[0]);
      StepInv(g, s, steps[0]);
      OnlyStopCancels(g, Apply(g, s, steps[0]), steps[1..], t);
    }
  }

  lemma {:induction false} RunsFaithful(g: Graph, s: RunState, steps: seq<Step>, t: RunState,
                                        skipped: set<NodeId>, good: set<NodeId>)
    requires Faithful(g, s, skipped, good) && Runs(g, s, steps, t) && RunHonors(g, s, steps, good)
    ensures Faithful(g, t, skipped, good)
    decreases |steps|
  {
    if steps == [] {
    } else {
      FaithfulStep(g, s, steps[0], skipped, good);
      RunsFaithful(g, Apply(g, s, steps[0]), steps[1..], t, skipped, good);
    }
  }

  ghost function FinalNode(g: Graph, skipped: set<NodeId>, good: set<NodeId>, n: NodeId): NodeStatus {
    if n in skipped then Skipped
    else if n !in Executed(g, skipped, good) then Pending
    else if n in good then Success
    else Failed
  }

  ghost predicate AllDone(g: Graph, skipped: set<NodeId>, good: set<NodeId>) {
    forall n :: n in Ids(g) ==> FinalNode(g, skipped, good, n) in {Skipped, Success}
  }

  lemma FinalState(g: Graph, t: RunState, skipped: set<NodeId>, good: set<NodeId>)
    requires Faithful(g, t, skipped, good) && Terminal(t.status)
    ensures t.nodes.Keys == Ids(g)
    ensures forall n :: n in Ids(g) ==> t.nodes[n].status == FinalNode(g, skipped, good, n)
    ensures t.status == if g.nodes != [] && AllDone(g, skipped, good) then RunSuccess else RunFailed
  {
    var X := Executed(g, skipped, good);
    var F := set n | n in t.nodes && t.nodes[n].status in {Success, Failed};
    forall n | n in t.nodes ensures t.nodes[n].status in {Success, Failed, Skipped, Pending} {
      assert Outstanding(t, n) == 0;
    }
    forall n | Unlocked(g, skipped, good, F, n) ensures n in F {
      if t.nodes[n].status == Pending {
        forall e | e in g.edges && e.target == n ensures Done(t.nodes, e.source) {
          assert EdgeInto(g, e.source, n);
          assert Opens(skipped, good, F, e.source);
        }
        assert Ready(g, t.nodes, n);
      }
    }
    assert ClosedUnder(g, skipped, good, F);
    forall n | n in Ids(g) ensures t.nodes[n].status == FinalNode(g, skipped, good, n) {
      assert n in F ==> Started(t, n);
      assert n in X ==> n in F;
    }
  }

  /** Confluence: with the final outcome of every node fixed, nobody pressing Stop and every
      approval decided accordingly, every interleaving that ends has one and the same node map
      and run status. The nodes that ran are the least fixed point. */
  lemma {:induction false} Confluence(g: Graph, s: RunState, steps: seq<Step>, t: RunState, good: set<NodeId>)
    requires Init(g, s) && Runs(g, s, steps, t) && RunHonors(g, s, steps, good) && Terminal(t.status)
    ensures t.nodes.Keys == Ids(g)
    ensures forall n :: n in Ids(g) ==> t.nodes[n].status == FinalNode(g, SkippedIn(s), good, n)
    ensures t.status == if g.nodes != [] && AllDone(g, SkippedIn(s), good) then RunSuccess else RunFailed
  {
    InitInv(g, s);
    RunsFaithful(g, s, steps, t, SkippedIn(s), good);
    FinalState(g, t, SkippedIn(s), good);
  }

  /******* Cycles and unknown sources *******/

  /** The edges that matter: those into known nodes that are not skipped. */
  ghost function EdgeRel(g: Graph, skipped: set<NodeId>): set<(NodeId, NodeId)> {
    set e | e in g.edges && e.target in Ids(g) - skipped :: (e.source, e.target)
  }

  /** Apart from what leads into skipped nodes, every edge into a known node comes from a known
      node, and there is no cycle. */
  ghost predicate WellFormed(g: Graph, skipped: set<NodeId>) {
    (forall m, n :: (m, n) in EdgeRel(g, skipped) ==> m in Ids(g)) && Acyclic(EdgeRel(g, skipped))
  }

  /** On a cycle, an unknown source, or downstream of either. */
  ghost predicate Stuck(g: Graph, skipped: set<NodeId>, n: NodeId) {
    var E := EdgeRel(g, skipped);
    exists x :: (ReachPlus(E, x, x) || x !in Ids(g)) && Reach(E, x, n)
  }

  ghost function Free(g: Graph, skipped: set<NodeId>): set<NodeId> {
    set n | n in Ids(g) - skipped && !Stuck(g, skipped, n)
  }

  lemma EdgeRelHas(g: Graph, skipped: set<NodeId>, m: NodeId, n: NodeId)
    ensures (m, n) in EdgeRel(g, skipped) <==> EdgeInto(g, m, n) && n in Ids(g) - skipped
  {
  }

  /** Nothing leads to a skipped node but the node itself, so a skipped known node is never stuck. */
  lemma SkippedNotStuck(g: Graph, skipped: set<NodeId>, n: NodeId)
    requires n in skipped && n in Ids(g)
    ensures !Stuck(g, skipped, n)
  {
    var E := EdgeRel(g, skipped);
    forall k: nat, x | Walk(E, k, x, n) ensures k == 0 {
      if k > 0 { var c := WalkLast(E, k, x, n); }
    }
  }

  /** A stuck known node has a source that is neither free nor skipped. */
  lemma StuckSource(g: Graph, skipped: set<NodeId>, n: NodeId) returns (m: NodeId)
    requires skipped <= Ids(g) && Stuck(g, skipped, n) && n in Ids(g)
    ensures (m, n) in EdgeRel(g, skipped) && m !in Free(g, skipped) && m !in skipped
  {
    var E := EdgeRel(g, skipped);
    var x :| (ReachPlus(E, x, x) || x !in Ids(g)) && Reach(E, x, n);
    var k: nat :| Walk(E, k, x, n) && (x == n ==> 0 < k);
    m := WalkLast(E, k, x, n);
    assert Reach(E, x, m);
    if m in skipped { SkippedNotStuck(g, skipped, m); }
  }

  /** Conversely, everything after a source that is neither free nor skipped is stuck. */
  lemma StuckForward(g: Graph, skipped: set<NodeId>, m: NodeId, n: NodeId)
    requires (m, n) in EdgeRel(g, skipped) && m !in Free(g, skipped) && m !in skipped
    ensures Stuck(g, skipped, n)
  {
    var E := EdgeRel(g, skipped);
    ReachEdge(E, m, n);
    if Stuck(g, skipped, m) {
      var x :| (ReachPlus(E, x, x) || x !in Ids(g)) && Reach(E, x, m);
      ReachTrans(E, x, m, n);
    }
  }

  lemma FreeClosed(g: Graph, skipped: set<NodeId>, good: set<NodeId>)
    requires skipped <= Ids(g)
    ensures ClosedUnder(g, skipped, good, Free(g, skipped))
  {
    forall n | Unlocked(g, skipped, good, Free(g, skipped), n) ensures !Stuck(g, skipped, n) {
      if Stuck(g, skipped, n) {
        var m := StuckSource(g, skipped, n);
        EdgeRelHas(g, skipped, m, n);
        assert false;
      }
    }
  }

  /** In no run, Stop and retries included, is a node on a cycle or downstream of a cycle or of an
      unknown source ever dispatched, unless the cycle or the way from it was skipped. */
  lemma {:induction false} StuckNeverStarts(g: Graph, s: RunState, steps: seq<Step>, t: RunState, n: NodeId)
    requires Init(g, s) && Runs(g, s, steps, t) && Stuck(g, SkippedIn(s), n)
    ensures !Started(t, n)
  {
    InitInv(g, s);
    var every := Ids(g) + (set i | 0 <= i < |steps| && (steps[i].Finish? || steps[i].Approve?) :: steps[i].node);
    FreeClosed(g, SkippedIn(s), every);
    RunsWithin(g, s, steps, t, SkippedIn(s), every, Free(g, SkippedIn(s)));
  }

  /** By induction over the ancestors, of which a free node's sources have strictly fewer. */
  lemma {:induction false} FreeExecutes(g: Graph, skipped: set<NodeId>, good: set<NodeId>, n: NodeId)
    requires Ids(g) <= good && n in Free(g, skipped)
    ensures n in Executed(g, skipped, good)
    decreases Ancestors(EdgeRel(g, skipped), Ids(g), n)
  {
    forall m | EdgeInto(g, m, n) ensures Opens(skipped, good, Executed(g, skipped, good), m) {
      EdgeRelHas(g, skipped, m, n);
      if m !in skipped {
        if m !in Free(g, skipped) { StuckForward(g, skipped, m, n); }
        ReachRefl(EdgeRel(g, skipped), m);
        FewerAncestors(EdgeRel(g, skipped), Ids(g), m, n);
        FreeExecutes(g, skipped, good, m);
      }
    }
    ExecutedFixpoint(g, skipped, good, n);
  }

  /** With every outcome good, the nodes that run are exactly the free ones. */
  lemma AllGoodExecutesFree(g: Graph, skipped: set<NodeId>, good: set<NodeId>)
    requires skipped <= Ids(g) <= good
    ensures Executed(g, skipped, good) == Free(g, skipped)
  {
    FreeClosed(g, skipped, good);
    forall n | n in Free(g, skipped) ensures n in Executed(g, skipped, good) { FreeExecutes(g, skipped, good, n); }
  }

  /** Quiescence, both ways: a fresh or retried run in which every node body succeeds and every
      approval passes ends in success exactly when the graph has a node and, apart from what leads
      into skipped nodes, no cycle and no edge from an unknown node. */
  lemma {:induction false} AllGoodVerdict(g: Graph, s: RunState, steps: seq<Step>, t: RunState, good: set<NodeId>)
    requires Init(g, s) && Runs(g, s, steps, t) && RunHonors(g, s, steps, good) && Terminal(t.status)
    requires Ids(g) <= good
    ensures t.status == RunSuccess <==> g.nodes != [] && WellFormed(g, SkippedIn(s))
  {
    var skipped := SkippedIn(s);
    Confluence(g, s, steps, t, good);
    AllGoodExecutesFree(g, skipped, good);
    WellFormedIffFree(g, skipped);
    assert AllDone(g, skipped, good) <==> Free(g, skipped) == Ids(g) - skipped by {
      if AllDone(g, skipped, good) {
        forall n | n in Ids(g) - skipped ensures n in Free(g, skipped) {
          assert FinalNode(g, skipped, good, n) in {Skipped, Success};
        }
      }
    }
  }

  lemma StuckMeansIllFormed(g: Graph, skipped: set<NodeId>, n: NodeId)
    requires Stuck(g, skipped, n) && n in Ids(g)
    ensures !WellFormed(g, skipped)
  {
  }

  lemma WellFormedIffFree(g: Graph, skipped: set<NodeId>)
    requires skipped <= Ids(g)
    ensures WellFormed(g, skipped) <==> Free(g, skipped) == Ids(g) - skipped
  {
    var E := EdgeRel(g, skipped);
    forall n | n in Ids(g) && Stuck(g, skipped, n) ensures !WellFormed(g, skipped) {
      StuckMeansIllFormed(g, skipped, n);
    }
    if m, n :| (m, n) in E && m !in Ids(g) {
      StuckForward(g, skipped, m, n);
    } else if x :| ReachPlus(E, x, x) {
      var k: nat :| 0 < k && Walk(E, k, x, x);
      var m := WalkLast(E, k, x, x);
      ReachRefl(E, x);
      assert Stuck(g, skipped, x) && x in Ids(g) - skipped;
    }
  }

  /** On a well-formed graph with nothing left to dispatch, no record can stay pending. */
  lemma {:induction false} NothingPending(g: Graph, skipped: set<NodeId>, nodes: map<NodeId, NodeRun>, n: NodeId)
    requires WellFormed(g, skipped) && nodes.Keys == Ids(g) && n in nodes
    requires forall k :: k in skipped ==> Done(nodes, k)
    requires forall k :: k in nodes ==> nodes[k].status in {Success, Skipped, Pending} && !Ready(g, nodes, k)
    ensures Done(nodes, n)
    decreases Ancestors(EdgeRel(g, skipped), Ids(g), n)
  {
    if n !in skipped {
      forall e | e in g.edges && e.target == n ensures Done(nodes, e.source) {
        var m := e.source;
        assert EdgeInto(g, m, n);
        EdgeRelHas(g, skipped, m, n);
        FewerAncestors(EdgeRel(g, skipped), Ids(g), m, n);
        NothingPending(g, skipped, nodes, m);
      }
    }
  }

  /** Quiescence as the tests use it: a run that ends failed without any failed node has an empty
      graph, a cycle, or an edge from an unknown node. */
  lemma {:induction false} DeadlockMeansBadGraph(g: Graph, s: RunState, steps: seq<Step>, t: RunState)
    requires Init(g, s) && Runs(g, s, steps, t) && t.status == RunFailed && !Has(t.nodes, Failed)
    ensures g.nodes == [] || !WellFormed(g, SkippedIn(s))
  {
    InitInv(g, s);
    RunsInv(g, s, steps, t);
    if g.nodes != [] && WellFormed(g, SkippedIn(s)) {
      assert Has(t.nodes, Pending);
      var n :| n in t.nodes && t.nodes[n].status == Pending;
      forall k | k in t.nodes ensures t.nodes[k].status in {Success, Skipped, Pending} {
        assert Outstanding(t, k) == 0;
      }
      forall k | k in SkippedIn(s) ensures Done(t.nodes, k) { DoneForever(g, s, steps, t, k); }
      NothingPending(g, SkippedIn(s), t.nodes, n);
      assert false;
    }
  }
}
