/** Retrying a failed run from one node: everything upstream of it is skipped, the rest runs again. */
module RetryWave {
  import opened Paths
  import opened PipelineModel
  import opened PipelineSafety
  import opened PipelineConfluence
  import PipelineEffects

  /** Breadth-first search against the edges. The result lists, possibly more than once, exactly
      the other nodes that can reach `start`; cycles and repeated edges do no harm. */
  method GetAncestors(start: NodeId, edges: seq<Edge>) returns (ancestors: seq<NodeId>)
    ensures forall x :: x in ancestors <==> x != start && Reach(Rel(edges), x, start)
  {
    ancestors := [];
    var visited: set<NodeId> := {};
    var queue := [start];
    ghost var universe := {start} + set e | e in edges :: e.source;
    ReachRefl(Rel(edges), start);
    while queue != []
      invariant visited <= universe && forall x :: x in queue ==> x in universe
      invariant start in visited || (visited == {} && queue == [start])
      invariant forall x :: x in visited || x in queue ==> Reach(Rel(edges), x, start)
      invariant forall x :: x in ancestors <==> x != start && (x in visited || x in queue)
      invariant forall e :: e in edges && e.target in visited ==> e.source in visited || e.source in queue
      decreases universe - visited, |queue|
    {
      var current := queue[0];
      ghost var before := queue;
      queue := queue[1..];
      assert forall x :: x in before <==> x == current || x in queue;
      if current in visited {
        continue;
      }
      visited := visited + {current};
      ghost var q0, a0 := queue, ancestors;
      for i := 0 to |edges|
        invariant forall x :: x in queue <==> x in q0 || ParentAmong(edges[..i], visited, current, x)
        invariant forall x :: x in ancestors <==> x in a0 || ParentAmong(edges[..i], visited, current, x)
      {
        var e := edges[i];
        assert edges[..i + 1] == edges[..i] + [e];
        ghost var q1, a1 := queue, ancestors;
        if e.target == current && e.source !in visited {
          ancestors := ancestors + [e.source];
          queue := queue + [e.source];
        }
        assert forall x :: x in queue <==> x in q1 || (e == Edge(x, current) && x !in visited);
        assert forall x :: x in ancestors <==> x in a1 || (e == Edge(x, current) && x !in visited);
      }
      assert edges[..|edges|] == edges;
      forall x | ParentAmong(edges, visited, current, x)
        ensures Reach(Rel(edges), x, start) && x in universe && x != start
      {
        RelHas(edges, x, current);
        ReachEdge(Rel(edges), x, current);
        ReachTrans(Rel(edges), x, current, start);
      }
      forall e | e in edges && e.target in visited ensures e.source in visited || e.source in queue {
        if e.target == current { assert e == Edge(e.source, current); }
      }
    }
    forall x | Reach(Rel(edges), x, start) ensures x in visited {
      FlipDuality(Rel(edges), x, start);
      var k: nat :| Walk(Flip(Rel(edges)), k, start, x);
      ClosedKeepsWalk(Flip(Rel(edges)), visited, k, start, x);
    }
  }

  predicate ParentAmong(edges: seq<Edge>, visited: set<NodeId>, current: NodeId, x: NodeId) {
    Edge(x, current) in edges && x !in visited
  }

  /******* The retry request *******/

  /** A repeated node id violates the (run, node_id) uniqueness constraint: the request fails, but the new
      run and the records before the repetition are stored. */
  datatype RetryResult =
    | NotFailed
    | NoStartNode
    | DuplicateNode(start: NodeId, left: RunState)
    | Accepted(start: NodeId, run: RunState)

  /** The requested node when it exists, else the first entry node, else the first node. */
  function StartNode(g: Graph, requested: NodeId): NodeId {
    if requested.text != "" && requested in Ids(g) then requested
    else
      var entries := Entries(g.nodes, g.edges);
      if entries != [] then entries[0] else if g.nodes != [] then g.nodes[0].id else NodeId("")
  }

  predicate IsEntry(edges: seq<Edge>, n: NodeId) {
    forall e :: e in edges ==> e.target != n
  }

  function Entries(nodes: seq<NodeConfig>, edges: seq<Edge>): seq<NodeId> {
    if nodes == [] then []
    else (if IsEntry(edges, nodes[0].id) then [nodes[0].id] else []) + Entries(nodes[1..], edges)
  }

  /** The first entry is that of the first node without an incoming edge. */
  lemma {:induction false} FirstEntry(nodes: seq<NodeConfig>, edges: seq<Edge>)
    ensures Entries(nodes, edges) == [] ==> forall i :: 0 <= i < |nodes| ==> !IsEntry(edges, nodes[i].id)
    ensures Entries(nodes, edges) != [] ==>
      exists i: nat :: IsFirstEntry(nodes, edges, i) && Entries(nodes, edges)[0] == nodes[i].id
  {
    if nodes == [] {
    } else {
      FirstEntry(nodes[1..], edges);
      if IsEntry(edges, nodes[0].id) {
        assert IsFirstEntry(nodes, edges, 0);
      } else if Entries(nodes[1..], edges) != [] {
        var i: nat :| IsFirstEntry(nodes[1..], edges, i) && Entries(nodes[1..], edges)[0] == nodes[1..][i].id;
        assert forall j :: 0 < j < |nodes| ==> nodes[j] == nodes[1..][j - 1];
        assert IsFirstEntry(nodes, edges, i + 1);
      }
    }
  }

  ghost predicate IsFirstEntry(nodes: seq<NodeConfig>, edges: seq<Edge>, i: nat) {
    i < |nodes| && IsEntry(edges, nodes[i].id) && forall j :: 0 <= j < i ==> !IsEntry(edges, nodes[j].id)
  }

  /** The start is the requested node if that exists, else the first node without an incoming edge, else
      the first node, and the empty id only when there is no node or that node's id is empty. */
  lemma StartNodeIs(g: Graph, requested: NodeId)
    ensures StartNode(g, requested) in Ids(g) || (g.nodes == [] && StartNode(g, requested).text == "")
    ensures requested.text != "" && requested in Ids(g) ==> StartNode(g, requested) == requested
    ensures requested.text == "" || requested !in Ids(g) ==>
      forall i: nat :: IsFirstEntry(g.nodes, g.edges, i) ==> StartNode(g, requested) == g.nodes[i].id
    ensures requested.text == "" || requested !in Ids(g) ==>
      g.nodes != [] && (forall c :: c in g.nodes ==> !IsEntry(g.edges, c.id)) ==>
      StartNode(g, requested) == g.nodes[0].id
  {
    FirstEntry(g.nodes, g.edges);
    if g.nodes != [] { assert g.nodes[0] in g.nodes; }
    if Entries(g.nodes, g.edges) != [] {
      var k: nat :| IsFirstEntry(g.nodes, g.edges, k) && Entries(g.nodes, g.edges)[0] == g.nodes[k].id;
      assert g.nodes[k] in g.nodes;
      forall i: nat | IsFirstEntry(g.nodes, g.edges, i) ensures i == k {}
    }
  }

  /** The records of the new run: everything that can reach the start node is skipped. */
  ghost predicate IsWave(g: Graph, start: NodeId, run: RunState) {
    Init(g, run) && run.nodes.Keys == Ids(g) && WaveStatuses(g, start, run.nodes)
  }

  ghost predicate WaveStatuses(g: Graph, start: NodeId, records: map<NodeId, NodeRun>) {
    forall n :: n in records ==>
      records[n].isApproval == ConfigOf(g.nodes, n).isApproval &&
      records[n].status == if n != start && Reach(Rel(g.edges), n, start) then Skipped else Pending
  }

  predicate UniqueIds(nodes: seq<NodeConfig>) {
    forall i, j :: 0 <= i < j < |nodes| ==> nodes[i].id != nodes[j].id
  }

  /** Node `k` is the first one whose id occurred before. */
  ghost predicate FirstRepeat(nodes: seq<NodeConfig>, k: nat) {
    k < |nodes| && UniqueIds(nodes[..k]) && exists c :: c in nodes[..k] && c.id == nodes[k].id
  }

  /** A run that was stored but never started: no wake-up is queued for it. */
  ghost predicate Stranded(run: RunState) {
    run.status == RunPending && run.advances == 0 && run.queued == run.active == multiset{} &&
    forall n :: n in run.nodes ==> run.nodes[n].status != Waiting
  }

  method Retry(parent: RunStatus, g: Graph, requested: NodeId) returns (r: RetryResult)
    ensures r.NotFailed? <==> parent != RunFailed
    ensures r.NoStartNode? <==> parent == RunFailed && StartNode(g, requested).text == ""
    ensures r.DuplicateNode? <==>
      parent == RunFailed && StartNode(g, requested).text != "" && !UniqueIds(g.nodes)
    ensures r.DuplicateNode? ==>
      r.start == StartNode(g, requested) && Stranded(r.left) && WaveStatuses(g, r.start, r.left.nodes)
    ensures r.DuplicateNode? ==>
      exists k: nat :: FirstRepeat(g.nodes, k) && r.left.nodes.Keys == set c | c in g.nodes[..k] :: c.id
    ensures r.Accepted? ==> UniqueIds(g.nodes) && r.start == StartNode(g, requested) && IsWave(g, r.start, r.run)
  {
    if parent != RunFailed {
      return NotFailed;
    }
    var start := StartNode(g, requested);
    if start.text == "" {
      return NoStartNode;
    }
    var ancestors := GetAncestors(start, g.edges);
    var created, records := WaveRecords(g.nodes, ancestors);
    if created < |g.nodes| {
      return DuplicateNode(start, RunState(RunPending, records, 0, multiset{}, multiset{}));
    }
    return Accepted(start, RunState(RunPending, records, 1, multiset{}, multiset{}));
  }

  /** One record per node, inserted in order until an id repeats. */
  method WaveRecords(nodes: seq<NodeConfig>, ancestors: seq<NodeId>)
    returns (created: nat, records: map<NodeId, NodeRun>)
    ensures if UniqueIds(nodes) then created == |nodes| else FirstRepeat(nodes, created)
    ensures created <= |nodes| && records.Keys == set c | c in nodes[..created] :: c.id
    ensures forall n :: n in records ==>
      records[n] == NodeRun(if n in ancestors then Skipped else Pending, ConfigOf(nodes, n).isApproval, 0)
  {
    records, created := map[], 0;
    while created < |nodes|
      invariant created <= |nodes| && records.Keys == set c | c in nodes[..created] :: c.id
      invariant UniqueIds(nodes[..created])
      invariant forall n :: n in records ==>
        records[n] == NodeRun(if n in ancestors then Skipped else Pending, ConfigOf(nodes, n).isApproval, 0)
    {
      var c := nodes[created];
      assert nodes[..created + 1] == nodes[..created] + [c];
      if c.id in records {
        RepeatIsNotUnique(nodes, created);
        return;
      }
      forall d | d in nodes[..created] ensures d.id != c.id { assert d.id in records.Keys; }
      FirstConfig(nodes, created);
      records := records[c.id := NodeRun(if c.id in ancestors then Skipped else Pending, c.isApproval, 0)];
      created := created + 1;
    }
    assert nodes[..|nodes|] == nodes;
  }

  lemma RepeatIsNotUnique(nodes: seq<NodeConfig>, k: nat)
    requires k < |nodes| && nodes[k].id in set c | c in nodes[..k] :: c.id
    ensures !UniqueIds(nodes) && exists c :: c in nodes[..k] && c.id == nodes[k].id
  {
    var c :| c in nodes[..k] && c.id == nodes[k].id;
    var j :| 0 <= j < k && nodes[j] == c;
  }

  /** A stranded run stays as it was stored: only Stop can touch it. */
  lemma {:induction false} StrandedForever(g: Graph, run: RunState, steps: seq<Step>, t: RunState)
    requires Stranded(run) && Runs(g, run, steps, t) && forall i :: 0 <= i < |steps| ==> !steps[i].Stop?
    ensures t == run && steps == []
  {
  }

  /******* What the wave promises *******/

  /** The skipped nodes are closed upstream: whatever leads into one of them is skipped too,
      is the start node itself, or is not a node of the graph. */
  lemma SkippedClosedUpstream(g: Graph, start: NodeId, run: RunState, m: NodeId, n: NodeId)
    requires IsWave(g, start, run) && n in SkippedIn(run) && Edge(m, n) in g.edges
    ensures m == start || m !in Ids(g) || m in SkippedIn(run)
  {
    RelHas(g.edges, m, n);
    ReachEdge(Rel(g.edges), m, n);
    ReachTrans(Rel(g.edges), m, n, start);
  }

  lemma ReadyInWave(g: Graph, start: NodeId, run: RunState)
    requires IsWave(g, start, run) && start in Ids(g)
    ensures Ready(g, run.nodes, start) <==> forall m :: Edge(m, start) in g.edges ==> m in Ids(g) && m != start
  {
    forall m | Edge(m, start) in g.edges && m in Ids(g) ensures Done(run.nodes, m) <==> m != start {
      RelHas(g.edges, m, start);
      ReachEdge(Rel(g.edges), m, start);
    }
    if forall m :: Edge(m, start) in g.edges ==> m in Ids(g) && m != start {
      forall e | e in g.edges && e.target == start ensures Done(run.nodes, e.source) {
        assert e == Edge(e.source, start);
      }
    } else {
      var m :| Edge(m, start) in g.edges && !(m in Ids(g) && m != start);
      assert !Done(run.nodes, m) && Edge(m, start).target == start;
    }
  }

  /** The first wake-up dispatches the start node exactly when every edge into it comes from a
      real node other than itself: a self-loop or an unknown source blocks it. */
  lemma StartIsReady(g: Graph, start: NodeId, run: RunState)
    requires IsWave(g, start, run) && start in Ids(g)
    ensures Started(Apply(g, run, Advance), start) <==>
            forall m :: Edge(m, start) in g.edges ==> m in Ids(g) && m != start
  {
    assert WithRecords(g, run.nodes) == run.nodes;
    ReadyInWave(g, start, run);
    if Ready(g, run.nodes, start) {
      assert start in ReadySet(g, run.nodes);
      assert Apply(g, run, Advance).nodes[start].status in {Waiting, Running};
    } else if Started(Apply(g, run, Advance), start) {
      AdvanceStarts(g, run, start);
    }
  }

  /** In a retried run, too, approval entries are never executed and the others never wait for a person. */
  lemma ApprovalWaitsAgain(g: Graph, start: NodeId, run: RunState, steps: seq<Step>, t: RunState, i: nat)
    requires IsWave(g, start, run) && Runs(g, run, steps, t) && PipelineEffects.IsFirst(g, i)
    ensures g.nodes[i].isApproval ==>
      t.queued[g.nodes[i].id] == 0 && t.active[g.nodes[i].id] == 0 &&
      (g.nodes[i].id in t.nodes ==> t.nodes[g.nodes[i].id].status != Running)
    ensures !g.nodes[i].isApproval && g.nodes[i].id in t.nodes ==> t.nodes[g.nodes[i].id].status != Waiting
  {
    PipelineEffects.LabelledWaits(g, run, steps, t, i);
  }

  /** A retried run in which every node body succeeds and every approval passes ends in success
      exactly when what it runs again is free of cycles and unknown sources; on a graph without any
      it does so wherever it was restarted. */
  lemma {:induction false} WaveVerdict(g: Graph, start: NodeId, run: RunState, steps: seq<Step>, t: RunState,
                                       good: set<NodeId>)
    requires IsWave(g, start, run) && start in Ids(g) && Ids(g) <= good
    requires Runs(g, run, steps, t) && RunHonors(g, run, steps, good) && Terminal(t.status)
    ensures t.status == RunSuccess <==> WellFormed(g, SkippedIn(run))
    ensures WellFormed(g, {}) ==> t.status == RunSuccess
  {
    AllGoodVerdict(g, run, steps, t, good);
    FewerEdges(g, SkippedIn(run));
  }

  /** Skipping nodes only removes edges. */
  lemma FewerEdges(g: Graph, skipped: set<NodeId>)
    ensures WellFormed(g, {}) ==> WellFormed(g, skipped)
  {
    forall m, n | (m, n) in EdgeRel(g, skipped) ensures (m, n) in EdgeRel(g, {}) {
      EdgeRelHas(g, skipped, m, n);
      EdgeRelHas(g, {}, m, n);
    }
    forall x | ReachPlus(EdgeRel(g, skipped), x, x) ensures ReachPlus(EdgeRel(g, {}), x, x) {
      var k: nat :| 0 < k && Walk(EdgeRel(g, skipped), k, x, x);
      WalkMono(EdgeRel(g, skipped), EdgeRel(g, {}), k, x, x);
    }
  }
}
