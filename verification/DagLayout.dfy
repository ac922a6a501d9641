/** Breadth-first levels and canvas positions of a filtered flow graph. */
module DagLayout {
  import opened Paths
  import opened PipelineModel
  import opened DagOrder

  /** The edges between known nodes. */
  ghost function Known(ids: set<NodeId>, edges: seq<Edge>): set<(NodeId, NodeId)> {
    set e | e in edges && e.source in ids && e.target in ids :: (e.source, e.target)
  }

  lemma KnownHas(ids: set<NodeId>, edges: seq<Edge>, m: NodeId, n: NodeId)
    ensures (m, n) in Known(ids, edges) <==> Edge(m, n) in edges && m in ids && n in ids
  {
  }

  /** `v` is `k` hops away from one of the roots `S`. */
  ghost predicate Hops(E: set<(NodeId, NodeId)>, S: set<NodeId>, k: nat, v: NodeId) {
    exists s :: s in S && Walk(E, k, s, v)
  }

  ghost predicate ShortestHops(E: set<(NodeId, NodeId)>, S: set<NodeId>, k: nat, v: NodeId) {
    Hops(E, S, k, v) && forall j: nat :: Hops(E, S, j, v) ==> k <= j
  }

  lemma HopsStep(E: set<(NodeId, NodeId)>, S: set<NodeId>, k: nat, u: NodeId, v: NodeId)
    requires Hops(E, S, k, u) && (u, v) in E
    ensures Hops(E, S, k + 1, v)
  {
    var s :| s in S && Walk(E, k, s, u);
    WalkOne(E, u, v);
    WalkConcat(E, k, 1, s, u, v);
  }

  /******* The queue loop *******/

  datatype Entry = Entry(node: NodeId, level: nat)

  /** Levels in the queue never fall, and differ by at most one. */
  ghost predicate Sorted(queue: seq<Entry>) {
    && (forall i, j :: 0 <= i < j < |queue| ==> queue[i].level <= queue[j].level)
    && (forall i :: 0 <= i < |queue| ==> queue[i].level <= queue[0].level + 1)
  }

  ghost predicate InQueue(queue: seq<Entry>, v: NodeId, level: nat) {
    Entry(v, level) in queue
  }

  /** Roots and successors of visited nodes are visited at least as early, or still queued. */
  ghost predicate Frontier(E: set<(NodeId, NodeId)>, S: set<NodeId>, levels: map<NodeId, nat>, queue: seq<Entry>) {
    && (forall s :: s in S ==> (s in levels && levels[s] == 0) || InQueue(queue, s, 0))
    && (forall u, v :: (u, v) in E && u in levels ==>
          (v in levels && levels[v] <= levels[u] + 1) || InQueue(queue, v, levels[u] + 1))
  }

  ghost predicate Measured(E: set<(NodeId, NodeId)>, S: set<NodeId>, levels: map<NodeId, nat>, queue: seq<Entry>) {
    && (forall v :: v in levels ==> ShortestHops(E, S, levels[v], v))
    && (forall e :: e in queue ==> Hops(E, S, e.level, e.node))
  }

  /** Everything fewer hops away than all queued levels has been visited, no later than that. */
  lemma {:induction false} VisitedBelow(E: set<(NodeId, NodeId)>, S: set<NodeId>, levels: map<NodeId, nat>,
                                        queue: seq<Entry>, k: nat, v: NodeId)
    requires Frontier(E, S, levels, queue) && (forall e :: e in queue ==> k < e.level)
    requires Hops(E, S, k, v)
    ensures v in levels && levels[v] <= k
  {
    var s :| s in S && Walk(E, k, s, v);
    if k == 0 {
      assert !InQueue(queue, s, 0);
    } else {
      var u := WalkLast(E, k, s, v);
      VisitedBelow(E, S, levels, queue, k - 1, u);
      assert !InQueue(queue, v, levels[u] + 1);
    }
  }

  /** The first queue entry of an unvisited node carries its shortest distance. */
  lemma FrontIsShortest(E: set<(NodeId, NodeId)>, S: set<NodeId>, levels: map<NodeId, nat>, queue: seq<Entry>)
    requires Frontier(E, S, levels, queue) && Measured(E, S, levels, queue) && Sorted(queue)
    requires queue != [] && queue[0].node !in levels
    ensures ShortestHops(E, S, queue[0].level, queue[0].node)
  {
    var Entry(u, lvl) := queue[0];
    forall j: nat | Hops(E, S, j, u) ensures lvl <= j {
      if j < lvl {
        VisitedBelow(E, S, levels, queue, j, u);
        assert false;
      }
    }
  }

  function Entries(nodes: seq<NodeId>, level: nat): (r: seq<Entry>)
    ensures |r| == |nodes| && forall i :: 0 <= i < |r| ==> r[i] == Entry(nodes[i], level)
  {
    seq(|nodes|, i requires 0 <= i < |nodes| => Entry(nodes[i], level))
  }

  lemma EntriesHave(nodes: seq<NodeId>, level: nat)
    ensures forall e :: e in Entries(nodes, level) <==> e.node in nodes && e.level == level
  {
    forall n | n in nodes ensures Entry(n, level) in Entries(nodes, level) {
      var i :| 0 <= i < |nodes| && nodes[i] == n;
      assert Entries(nodes, level)[i] == Entry(n, level);
    }
  }

  lemma SortedExpand(queue: seq<Entry>, next: seq<NodeId>)
    requires Sorted(queue) && queue != []
    ensures Sorted(queue[1..] + Entries(next, queue[0].level + 1))
  {
  }

  /** `rest` is `queue` after visiting its front node and queueing that node's successors. */
  ghost predicate Expanded(E: set<(NodeId, NodeId)>, queue: seq<Entry>, rest: seq<Entry>)
    requires queue != []
  {
    && (forall e :: e in queue ==> e == queue[0] || e in rest)
    && (forall v :: (queue[0].node, v) in E ==> InQueue(rest, v, queue[0].level + 1))
    && (forall e :: e in rest ==> e in queue || ((queue[0].node, e.node) in E && e.level == queue[0].level + 1))
  }

  lemma ExpandedQueue(E: set<(NodeId, NodeId)>, queue: seq<Entry>, next: seq<NodeId>)
    requires queue != [] && forall v :: v in next <==> (queue[0].node, v) in E
    ensures Expanded(E, queue, queue[1..] + Entries(next, queue[0].level + 1))
  {
    EntriesHave(next, queue[0].level + 1);
  }

  lemma ExpandFrontier(E: set<(NodeId, NodeId)>, S: set<NodeId>, levels: map<NodeId, nat>,
                       queue: seq<Entry>, rest: seq<Entry>)
    requires queue != [] && queue[0].node !in levels
    requires Frontier(E, S, levels, queue) && Expanded(E, queue, rest)
    ensures Frontier(E, S, levels[queue[0].node := queue[0].level], rest)
  {
  }

  lemma ExpandMeasured(E: set<(NodeId, NodeId)>, S: set<NodeId>, levels: map<NodeId, nat>,
                       queue: seq<Entry>, rest: seq<Entry>)
    requires queue != [] && ShortestHops(E, S, queue[0].level, queue[0].node)
    requires Measured(E, S, levels, queue) && Expanded(E, queue, rest)
    ensures Measured(E, S, levels[queue[0].node := queue[0].level], rest)
  {
    forall e | e in rest ensures Hops(E, S, e.level, e.node) {
      if e !in queue { HopsStep(E, S, queue[0].level, queue[0].node, e.node); }
    }
  }

  /** The loop invariant of the search. */
  ghost predicate Searching(ids: set<NodeId>, E: set<(NodeId, NodeId)>, S: set<NodeId>,
                            levels: map<NodeId, nat>, queue: seq<Entry>)
  {
    && levels.Keys <= ids && (forall e :: e in queue ==> e.node in ids)
    && Sorted(queue) && Frontier(E, S, levels, queue) && Measured(E, S, levels, queue)
  }

  lemma StartSearch(ids: set<NodeId>, edges: seq<Edge>, roots: seq<NodeId>)
    requires forall s :: s in roots ==> s in ids
    ensures Searching(ids, Known(ids, edges), Members(roots), map[], Entries(roots, 0))
  {
    EntriesHave(roots, 0);
    var E, queue := Known(ids, edges), Entries(roots, 0);
    var S := Members(roots);
    forall e | e in queue ensures Hops(E, S, e.level, e.node) { assert Walk(E, 0, e.node, e.node); }
  }

  lemma Skip(ids: set<NodeId>, E: set<(NodeId, NodeId)>, S: set<NodeId>, levels: map<NodeId, nat>, queue: seq<Entry>)
    requires Searching(ids, E, S, levels, queue) && queue != [] && queue[0].node in levels
    ensures Searching(ids, E, S, levels, queue[1..])
  {
  }

  lemma Visit(ids: set<NodeId>, E: set<(NodeId, NodeId)>, S: set<NodeId>, levels: map<NodeId, nat>,
              queue: seq<Entry>, rest: seq<Entry>)
    requires queue != [] && queue[0].node in ids && queue[0].node !in levels
    requires Searching(ids, E, S, levels, queue) && (forall a, b :: (a, b) in E ==> b in ids)
    requires Expanded(E, queue, rest) && Sorted(rest)
    ensures Searching(ids, E, S, levels[queue[0].node := queue[0].level], rest)
  {
    FrontIsShortest(E, S, levels, queue);
    ExpandFrontier(E, S, levels, queue, rest);
    ExpandMeasured(E, S, levels, queue, rest);
  }

  /** The queue after the front node's successors were appended. */
  lemma NextQueue(ids: set<NodeId>, edges: seq<Edge>, queue: seq<Entry>)
    requires queue != [] && Sorted(queue)
    ensures var rest := queue[1..] + Entries(Successors(ids, edges, queue[0].node), queue[0].level + 1);
      Expanded(Known(ids, edges), queue, rest) && Sorted(rest)
    ensures forall a, b :: (a, b) in Known(ids, edges) ==> b in ids
  {
    var next := Successors(ids, edges, queue[0].node);
    SuccessorsHave(ids, edges, queue[0].node);
    forall a, b ensures (a, b) in Known(ids, edges) <==> Edge(a, b) in edges && a in ids && b in ids {
      KnownHas(ids, edges, a, b);
    }
    SortedExpand(queue, next);
    ExpandedQueue(Known(ids, edges), queue, next);
  }

  lemma VisitFront(ids: set<NodeId>, edges: seq<Edge>, S: set<NodeId>, levels: map<NodeId, nat>, queue: seq<Entry>)
    requires queue != [] && queue[0].node !in levels && Searching(ids, Known(ids, edges), S, levels, queue)
    ensures queue[0].node in ids
    ensures Searching(ids, Known(ids, edges), S, levels[queue[0].node := queue[0].level],
                      queue[1..] + Entries(Successors(ids, edges, queue[0].node), queue[0].level + 1))
  {
    var rest := queue[1..] + Entries(Successors(ids, edges, queue[0].node), queue[0].level + 1);
    NextQueue(ids, edges, queue);
    assert queue[0] in queue;
    Visit(ids, Known(ids, edges), S, levels, queue, rest);
  }

  lemma EndSearch(ids: set<NodeId>, E: set<(NodeId, NodeId)>, S: set<NodeId>, levels: map<NodeId, nat>)
    requires Searching(ids, E, S, levels, [])
    ensures forall k: nat, v :: Hops(E, S, k, v) ==> v in levels
  {
    forall k: nat, v | Hops(E, S, k, v) ensures v in levels { VisitedBelow(E, S, levels, [], k, v); }
  }

  function NodesIn(queue: seq<Entry>): (r: seq<NodeId>)
    ensures |r| == |queue| && forall i :: 0 <= i < |r| ==> r[i] == queue[i].node
  {
    seq(|queue|, i requires 0 <= i < |queue| => queue[i].node)
  }

  ghost predicate QueueIn(ids: set<NodeId>, queue: seq<Entry>) {
    forall e :: e in queue ==> e.node in ids
  }

  /** The queue after its front node was visited. */
  function NextOf(ids: set<NodeId>, edges: seq<Edge>, queue: seq<Entry>): (r: seq<Entry>)
    requires queue != []
  {
    queue[1..] + Entries(Successors(ids, edges, queue[0].node), queue[0].level + 1)
  }

  lemma NextIn(ids: set<NodeId>, edges: seq<Edge>, queue: seq<Entry>)
    requires queue != [] && QueueIn(ids, queue)
    ensures queue[0].node in ids && QueueIn(ids, queue[1..]) && QueueIn(ids, NextOf(ids, edges, queue))
  {
    assert queue[0] in queue;
    SuccessorsHave(ids, edges, queue[0].node);
    EntriesHave(Successors(ids, edges, queue[0].node), queue[0].level + 1);
  }

  /** What the search makes of a queue, the levels given so far and the nodes visited so far. */
  ghost function Bfs(ids: set<NodeId>, edges: seq<Edge>,
                     queue: seq<Entry>, levels: map<NodeId, nat>, order: seq<NodeId>)
    : (map<NodeId, nat>, seq<NodeId>)
    requires QueueIn(ids, queue)
    decreases ids - levels.Keys, |queue|
  {
    if queue == [] then (levels, order)
    else
      NextIn(ids, edges, queue);
      var u := queue[0].node;
      if u in levels then Bfs(ids, edges, queue[1..], levels, order)
      else
        assert u in ids - levels.Keys && levels[u := queue[0].level].Keys == levels.Keys + {u};
        Bfs(ids, edges, NextOf(ids, edges, queue), levels[u := queue[0].level], order + [u])
  }

  /** The result of a search: exactly the nodes reachable from the roots, at their shortest hop distances. */
  ghost predicate FindsAll(ids: set<NodeId>, E: set<(NodeId, NodeId)>, S: set<NodeId>,
                           levels: map<NodeId, nat>, order: seq<NodeId>)
  {
    && levels.Keys <= ids && Lists(order, levels.Keys)
    && (forall v :: v in levels ==> ShortestHops(E, S, levels[v], v))
    && (forall k: nat, v :: Hops(E, S, k, v) ==> v in levels)
  }

  ghost predicate SearchState(ids: set<NodeId>, edges: seq<Edge>, S: set<NodeId>,
                              queue: seq<Entry>, levels: map<NodeId, nat>, order: seq<NodeId>)
  {
    Searching(ids, Known(ids, edges), S, levels, queue) && QueueIn(ids, queue) && Lists(order, levels.Keys)
  }

  lemma StateSkips(ids: set<NodeId>, edges: seq<Edge>, S: set<NodeId>,
                   queue: seq<Entry>, levels: map<NodeId, nat>, order: seq<NodeId>)
    requires SearchState(ids, edges, S, queue, levels, order) && queue != [] && queue[0].node in levels
    ensures SearchState(ids, edges, S, queue[1..], levels, order)
  {
    NextIn(ids, edges, queue);
    Skip(ids, Known(ids, edges), S, levels, queue);
  }

  lemma StateVisits(ids: set<NodeId>, edges: seq<Edge>, S: set<NodeId>,
                    queue: seq<Entry>, levels: map<NodeId, nat>, order: seq<NodeId>)
    requires SearchState(ids, edges, S, queue, levels, order) && queue != [] && queue[0].node !in levels
    ensures SearchState(ids, edges, S, NextOf(ids, edges, queue),
                        levels[queue[0].node := queue[0].level], order + [queue[0].node])
  {
    NextIn(ids, edges, queue);
    VisitFront(ids, edges, S, levels, queue);
    ListsAppend(order, levels.Keys, queue[0].node);
    assert levels[queue[0].node := queue[0].level].Keys == levels.Keys + {queue[0].node};
  }

  lemma StateEnds(ids: set<NodeId>, edges: seq<Edge>, S: set<NodeId>, levels: map<NodeId, nat>, order: seq<NodeId>)
    requires SearchState(ids, edges, S, [], levels, order)
    ensures FindsAll(ids, Known(ids, edges), S, levels, order)
  {
    EndSearch(ids, Known(ids, edges), S, levels);
  }

  lemma {:induction false} BfsFinds(ids: set<NodeId>, edges: seq<Edge>, S: set<NodeId>,
                                    queue: seq<Entry>, levels: map<NodeId, nat>, order: seq<NodeId>)
    requires QueueIn(ids, queue) && SearchState(ids, edges, S, queue, levels, order)
    ensures var (found, visited) := Bfs(ids, edges, queue, levels, order);
      FindsAll(ids, Known(ids, edges), S, found, visited)
    decreases ids - levels.Keys, |queue|
  {
    if queue == [] {
      StateEnds(ids, edges, S, levels, order);
    } else if queue[0].node in levels {
      StateSkips(ids, edges, S, queue, levels, order);
      BfsFinds(ids, edges, S, queue[1..], levels, order);
    } else {
      var u, lvl := queue[0].node, queue[0].level;
      NextIn(ids, edges, queue);
      StateVisits(ids, edges, S, queue, levels, order);
      assert u in ids - levels.Keys && levels[u := lvl].Keys == levels.Keys + {u};
      BfsFinds(ids, edges, S, NextOf(ids, edges, queue), levels[u := lvl], order + [u]);
    }
  }

  /** It visits them in the order of the queue. */
  lemma {:induction false} BfsVisits(ids: set<NodeId>, edges: seq<Edge>,
                                     queue: seq<Entry>, levels: map<NodeId, nat>, order: seq<NodeId>)
    requires QueueIn(ids, queue)
    ensures Bfs(ids, edges, queue, levels, order).1 == order + Visits(ids, edges, NodesIn(queue), levels.Keys)
    decreases ids - levels.Keys, |queue|
  {
    if queue == [] {
      assert NodesIn(queue) == [] && order + [] == order;
    } else if queue[0].node in levels {
      NextIn(ids, edges, queue);
      assert NodesIn(queue)[1..] == NodesIn(queue[1..]);
      BfsVisits(ids, edges, queue[1..], levels, order);
    } else {
      var u, next := queue[0].node, NextOf(ids, edges, queue);
      NextIn(ids, edges, queue);
      assert u in ids - levels.Keys && levels[u := queue[0].level].Keys == levels.Keys + {u};
      BfsVisits(ids, edges, next, levels[u := queue[0].level], order + [u]);
      VisitsNext(ids, edges, queue, levels.Keys);
      PutLast(order, u, Visits(ids, edges, NodesIn(next), levels.Keys + {u}));
    }
  }

  lemma PutLast(order: seq<NodeId>, u: NodeId, rest: seq<NodeId>)
    ensures order + [u] + rest == order + ([u] + rest)
  {
  }

  lemma VisitsNext(ids: set<NodeId>, edges: seq<Edge>, queue: seq<Entry>, seen: set<NodeId>)
    requires queue != [] && queue[0].node in ids - seen
    ensures Visits(ids, edges, NodesIn(queue), seen) ==
      [queue[0].node] + Visits(ids, edges, NodesIn(NextOf(ids, edges, queue)), seen + {queue[0].node})
  {
    assert NodesIn(queue)[1..] + Successors(ids, edges, queue[0].node) == NodesIn(NextOf(ids, edges, queue));
  }

  /** Breadth-first search from the roots: exactly the nodes reachable from a root get a level,
      it is their shortest hop distance, and they are visited layer by layer. */
  method Search(ids: set<NodeId>, edges: seq<Edge>, roots: seq<NodeId>)
    returns (levels: map<NodeId, nat>, order: seq<NodeId>)
    requires forall s :: s in roots ==> s in ids
    ensures FindsAll(ids, Known(ids, edges), Members(roots), levels, order)
    ensures order == Layers(ids, edges, roots, {})
  {
    SearchMeaning(ids, edges, roots);
    levels, order := DrainQueue(ids, edges, Entries(roots, 0));
  }

  method DrainQueue(ids: set<NodeId>, edges: seq<Edge>, start: seq<Entry>)
    returns (levels: map<NodeId, nat>, order: seq<NodeId>)
    requires QueueIn(ids, start)
    ensures (levels, order) == Bfs(ids, edges, start, map[], [])
  {
    var queue := start;
    levels, order := map[], [];
    while queue != []
      invariant QueueIn(ids, queue)
      invariant Bfs(ids, edges, queue, levels, order) == Bfs(ids, edges, start, map[], [])
      decreases ids - levels.Keys, |queue|
    {
      var u, lvl := queue[0].node, queue[0].level;
      NextIn(ids, edges, queue);
      if u in levels {
        queue := queue[1..];
        continue;
      }
      assert u in ids - levels.Keys && levels[u := lvl].Keys == levels.Keys + {u};
      levels := levels[u := lvl];
      order := order + [u];
      queue := queue[1..] + Entries(Successors(ids, edges, u), lvl + 1);
    }
  }

  lemma SearchMeaning(ids: set<NodeId>, edges: seq<Edge>, roots: seq<NodeId>)
    requires forall s :: s in roots ==> s in ids
    ensures QueueIn(ids, Entries(roots, 0))
    ensures var (levels, order) := Bfs(ids, edges, Entries(roots, 0), map[], []);
      FindsAll(ids, Known(ids, edges), Members(roots), levels, order) && order == Layers(ids, edges, roots, {})
  {
    EntriesHave(roots, 0);
    StartSearch(ids, edges, roots);
    BfsFinds(ids, edges, Members(roots), Entries(roots, 0), map[], []);
    SearchOrder(ids, edges, roots);
  }

  lemma SearchOrder(ids: set<NodeId>, edges: seq<Edge>, roots: seq<NodeId>)
    requires (forall s :: s in roots ==> s in ids) && QueueIn(ids, Entries(roots, 0))
    ensures Bfs(ids, edges, Entries(roots, 0), map[], []).1 == Layers(ids, edges, roots, {})
  {
    BfsVisits(ids, edges, Entries(roots, 0), map[], []);
    VisitsAreLayers(ids, edges, roots, {});
    var empty: map<NodeId, nat> := map[];
    assert NodesIn(Entries(roots, 0)) == roots && empty.Keys == {};
    assert [] + Visits(ids, edges, roots, {}) == Visits(ids, edges, roots, {});
  }

  /** `order` lists the members of `nodes`, each once. */
  ghost predicate Lists(order: seq<NodeId>, nodes: set<NodeId>) {
    (forall v :: v in order <==> v in nodes) && NoRepeat(order)
  }

  lemma ListsAppend(order: seq<NodeId>, nodes: set<NodeId>, u: NodeId)
    requires Lists(order, nodes) && u !in nodes
    ensures Lists(order + [u], nodes + {u})
  {
  }

  /******* Roots *******/

  ghost predicate HasSource(E: set<(NodeId, NodeId)>, n: NodeId) {
    exists m :: (m, n) in E
  }

  ghost function Targets(E: set<(NodeId, NodeId)>): set<NodeId> {
    set e | e in E :: e.1
  }

  lemma TargetsHave(E: set<(NodeId, NodeId)>, n: NodeId)
    ensures n in Targets(E) <==> HasSource(E, n)
  {
    if m :| (m, n) in E { assert (m, n).1 in Targets(E); }
  }

  /** The nodes without an incoming edge, in order, or just the first node when there are none. */
  ghost predicate IsRoots(distinct: seq<NodeId>, E: set<(NodeId, NodeId)>, roots: seq<NodeId>) {
    var free := Unseen(distinct, Targets(E));
    roots == if free == [] && distinct != [] then [distinct[0]] else free
  }

  /** Every node of an acyclic graph is reached from a node without incoming edges. */
  lemma {:induction false} AcyclicReached(E: set<(NodeId, NodeId)>, ids: set<NodeId>, roots: set<NodeId>, n: NodeId)
    returns (k: nat)
    requires Acyclic(E) && (forall a, b :: (a, b) in E ==> a in ids)
    requires forall x :: x in ids && !HasSource(E, x) ==> x in roots
    requires n in ids
    ensures Hops(E, roots, k, n)
    decreases Ancestors(E, ids, n)
  {
    if m :| (m, n) in E {
      FewerAncestors(E, ids, m, n);
      k := AcyclicReached(E, ids, roots, m);
      HopsStep(E, roots, k, m, n);
      k := k + 1;
    } else {
      assert n in roots && Walk(E, 0, n, n);
      k := 0;
    }
  }

  /** Dictionary keys: each id once, in order of first appearance. */
  method Distinct(ids: seq<NodeId>) returns (distinct: seq<NodeId>)
    ensures distinct == Unseen(ids, {}) && Lists(distinct, Members(ids))
  {
    distinct := [];
    for i := 0 to |ids|
      invariant distinct == Unseen(ids[..i], {})
    {
      assert ids[..i + 1] == ids[..i] + [ids[i]];
      UnseenAppend(ids[..i], ids[i], {});
      UnseenHas(ids[..i], {});
      if ids[i] !in distinct {
        distinct := distinct + [ids[i]];
      }
    }
    assert ids[..|ids|] == ids;
    UnseenHas(ids, {});
  }

  function InDegreeOf(ids: set<NodeId>, edges: seq<Edge>, n: NodeId): nat {
    if edges == [] then 0
    else
      var e := edges[|edges| - 1];
      InDegreeOf(ids, edges[..|edges| - 1], n) + (if e.source in ids && e.target in ids && e.target == n then 1 else 0)
  }

  lemma {:induction false} NoInDegree(ids: set<NodeId>, edges: seq<Edge>, n: NodeId)
    requires n in ids
    ensures InDegreeOf(ids, edges, n) == 0 <==> forall m :: m in ids ==> Edge(m, n) !in edges
  {
    if edges == [] {
    } else {
      var front, e := edges[..|edges| - 1], edges[|edges| - 1];
      assert edges == front + [e];
      NoInDegree(ids, front, n);
      assert e.target == n ==> e == Edge(e.source, n);
    }
  }

  method InDegrees(ids: set<NodeId>, edges: seq<Edge>) returns (inDegree: map<NodeId, nat>)
    ensures inDegree.Keys == ids
    ensures forall n | n in ids :: inDegree[n] == InDegreeOf(ids, edges, n)
  {
    inDegree := map n | n in ids :: 0;
    for i := 0 to |edges|
      invariant inDegree.Keys == ids
      invariant forall n | n in ids :: inDegree[n] == InDegreeOf(ids, edges[..i], n)
    {
      var e := edges[i];
      assert edges[..i + 1][..i] == edges[..i];
      if e.source in ids && e.target in ids {
        inDegree := inDegree[e.target := inDegree[e.target] + 1];
      }
    }
    assert edges[..|edges|] == edges;
  }

  method FindRoots(distinct: seq<NodeId>, edges: seq<Edge>) returns (roots: seq<NodeId>)
    requires NoRepeat(distinct)
    ensures IsRoots(distinct, Known(Members(distinct), edges), roots)
  {
    var ids := Members(distinct);
    var inDegree := InDegrees(ids, edges);
    ghost var targets := Targets(Known(ids, edges));
    roots := [];
    for i := 0 to |distinct|
      invariant roots == Unseen(distinct[..i], targets)
    {
      assert distinct[..i + 1] == distinct[..i] + [distinct[i]];
      UnseenAppend(distinct[..i], distinct[i], targets);
      ZeroInDegree(ids, edges, distinct[i]);
      if inDegree[distinct[i]] == 0 {
        roots := roots + [distinct[i]];
      }
    }
    assert distinct[..|distinct|] == distinct;
    if roots == [] && distinct != [] {
      roots := [distinct[0]];
    }
  }

  lemma ZeroInDegree(ids: set<NodeId>, edges: seq<Edge>, n: NodeId)
    requires n in ids
    ensures InDegreeOf(ids, edges, n) == 0 <==> n !in Targets(Known(ids, edges))
  {
    TargetsHave(Known(ids, edges), n);
    NoInDegree(ids, edges, n);
    forall m ensures (m, n) in Known(ids, edges) <==> m in ids && Edge(m, n) in edges { KnownHas(ids, edges, m, n); }
  }

  /** A root has no incoming edge, unless every node has one: then the first node is the only root. */
  lemma RootsExactly(distinct: seq<NodeId>, E: set<(NodeId, NodeId)>, roots: seq<NodeId>)
    requires IsRoots(distinct, E, roots)
    ensures (exists n :: n in distinct && !HasSource(E, n)) ==>
      forall n :: n in roots <==> n in distinct && !HasSource(E, n)
    ensures distinct != [] && (forall n :: n in distinct ==> HasSource(E, n)) ==> roots == [distinct[0]]
    ensures distinct == [] ==> roots == []
  {
    UnseenHas(distinct, Targets(E));
    forall n ensures n in Targets(E) <==> HasSource(E, n) { TargetsHave(E, n); }
    if n :| n in distinct && !HasSource(E, n) { assert n in Unseen(distinct, Targets(E)); }
    if distinct != [] && forall n :: n in distinct ==> HasSource(E, n) {
      if Unseen(distinct, Targets(E)) != [] { assert Unseen(distinct, Targets(E))[0] in Unseen(distinct, Targets(E)); }
    }
  }

  /** All roots are nodes, some exist when there is a node, and every node without incoming edges is one. */
  lemma RootsAre(distinct: seq<NodeId>, E: set<(NodeId, NodeId)>, roots: seq<NodeId>)
    requires IsRoots(distinct, E, roots)
    ensures forall n :: n in roots ==> n in distinct
    ensures distinct != [] ==> roots != []
    ensures forall n :: n in distinct && !HasSource(E, n) ==> n in roots
  {
    UnseenHas(distinct, Targets(E));
    forall n | n in distinct && !HasSource(E, n) ensures n in Unseen(distinct, Targets(E)) { TargetsHave(E, n); }
  }

  /******* Positions *******/

  datatype Position = Position(x: int, y: int)

  /** The nodes of one level, in order. */
  function Group(order: seq<NodeId>, levels: map<NodeId, nat>, level: nat): (r: seq<NodeId>)
    requires forall n :: n in order ==> n in levels
    ensures forall n :: n in r <==> n in order && levels[n] == level
  {
    if order == [] then []
    else
      var front, last := order[..|order| - 1], order[|order| - 1];
      assert order == front + [last];
      Group(front, levels, level) + (if levels[last] == level then [last] else [])
  }

  lemma {:induction false} GroupOnce(order: seq<NodeId>, levels: map<NodeId, nat>, level: nat)
    requires NoRepeat(order) && forall n :: n in order ==> n in levels
    ensures NoRepeat(Group(order, levels, level))
    decreases |order|
  {
    if order == [] {
    } else {
      var front, last := order[..|order| - 1], order[|order| - 1];
      assert order == front + [last];
      GroupOnce(front, levels, level);
      var group := Group(front, levels, level);
      assert last !in group;
      assert forall i :: 0 <= i < |group| ==> group[i] in group;
    }
  }

  /** Column by level, row by rank within the level. */
  ghost predicate Placed(order: seq<NodeId>, levels: map<NodeId, nat>, positions: map<NodeId, Position>)
    requires Lists(order, levels.Keys)
  {
    && positions.Keys == levels.Keys
    && forall level: nat, i: nat :: i < |Group(order, levels, level)| ==>
         positions[Group(order, levels, level)[i]] == Position(level * 300 + 100, i * 180 + 150)
  }

  /** The same by positions in the order: a column starts at the top, and each further node of a level stands
      one row below the last earlier one of that level. */
  ghost predicate RowsFollow(order: seq<NodeId>, levels: map<NodeId, nat>, positions: map<NodeId, Position>) {
    && (forall p :: 0 <= p < |order| ==> order[p] in levels && order[p] in positions)
    && (forall p :: 0 <= p < |order| ==> positions[order[p]].x == levels[order[p]] * 300 + 100)
    && (forall q :: 0 <= q < |order| && NoneAtLevel(order, levels, 0, q, levels[order[q]]) ==>
          positions[order[q]].y == 150)
    && (forall p, q :: 0 <= p < q < |order| && levels[order[p]] == levels[order[q]] ==>
          NoneAtLevel(order, levels, p + 1, q, levels[order[q]]) ==>
          positions[order[q]].y == positions[order[p]].y + 180)
  }

  /** No node from position `p` up to `q` has this level. */
  ghost predicate NoneAtLevel(order: seq<NodeId>, levels: map<NodeId, nat>, p: nat, q: nat, level: nat) {
    forall k :: p <= k < q && k < |order| && order[k] in levels ==> levels[order[k]] != level
  }

  lemma {:induction false} GroupAt(order: seq<NodeId>, levels: map<NodeId, nat>, q: nat, level: nat)
    requires q < |order| && (forall n :: n in order ==> n in levels) && levels[order[q]] == level
    ensures |Group(order[..q], levels, level)| < |Group(order, levels, level)|
    ensures Group(order, levels, level)[|Group(order[..q], levels, level)|] == order[q]
    decreases |order|
  {
    var front := order[..|order| - 1];
    if q == |order| - 1 {
    } else {
      assert front[..q] == order[..q];
      GroupAt(front, levels, q, level);
    }
  }

  /** Without nodes of the level in between, the group does not grow. */
  lemma {:induction false} GroupGap(order: seq<NodeId>, levels: map<NodeId, nat>, p: nat, q: nat, level: nat)
    requires p <= q <= |order| && (forall n :: n in order ==> n in levels) && NoneAtLevel(order, levels, p, q, level)
    ensures Group(order[..q], levels, level) == Group(order[..p], levels, level)
    decreases q
  {
    if p == q {
    } else {
      assert order[..q][..q - 1] == order[..q - 1];
      GroupGap(order, levels, p, q - 1, level);
    }
  }

  lemma RowOf(order: seq<NodeId>, levels: map<NodeId, nat>, positions: map<NodeId, Position>, q: nat)
    requires Lists(order, levels.Keys) && Placed(order, levels, positions) && q < |order|
    ensures order[q] in levels && order[q] in positions
    ensures positions[order[q]] ==
      Position(levels[order[q]] * 300 + 100, |Group(order[..q], levels, levels[order[q]])| * 180 + 150)
  {
    assert order[q] in order;
    GroupAt(order, levels, q, levels[order[q]]);
  }

  lemma PlacedFollows(order: seq<NodeId>, levels: map<NodeId, nat>, positions: map<NodeId, Position>)
    requires Lists(order, levels.Keys) && Placed(order, levels, positions)
    ensures RowsFollow(order, levels, positions)
  {
    forall q | 0 <= q < |order|
      ensures order[q] in levels && order[q] in positions && positions[order[q]].x == levels[order[q]] * 300 + 100
    {
      RowOf(order, levels, positions, q);
    }
    forall q | 0 <= q < |order| && NoneAtLevel(order, levels, 0, q, levels[order[q]])
      ensures positions[order[q]].y == 150
    {
      RowOf(order, levels, positions, q);
      GroupGap(order, levels, 0, q, levels[order[q]]);
    }
    forall p, q | 0 <= p < q < |order| && levels[order[p]] == levels[order[q]] &&
      NoneAtLevel(order, levels, p + 1, q, levels[order[q]])
      ensures positions[order[q]].y == positions[order[p]].y + 180
    {
      NextRow(order, levels, positions, p, q);
    }
  }

  lemma NextRow(order: seq<NodeId>, levels: map<NodeId, nat>, positions: map<NodeId, Position>, p: nat, q: nat)
    requires Lists(order, levels.Keys) && Placed(order, levels, positions) && p < q < |order|
    requires order[p] in levels && order[q] in levels && order[p] in positions && order[q] in positions
    requires levels[order[p]] == levels[order[q]] && NoneAtLevel(order, levels, p + 1, q, levels[order[q]])
    ensures positions[order[q]].y == positions[order[p]].y + 180
  {
    var level := levels[order[q]];
    RowOf(order, levels, positions, p);
    RowOf(order, levels, positions, q);
    GroupGap(order, levels, p + 1, q, level);
    GroupGrows(order, levels, p);
  }

  lemma GroupGrows(order: seq<NodeId>, levels: map<NodeId, nat>, p: nat)
    requires p < |order| && forall n :: n in order ==> n in levels
    ensures var level := levels[order[p]];
      |Group(order[..p + 1], levels, level)| == |Group(order[..p], levels, level)| + 1
  {
    assert order[..p + 1][..p] == order[..p];
  }

  /** No two nodes are drawn at the same place. */
  lemma PositionsDistinct(order: seq<NodeId>, levels: map<NodeId, nat>, positions: map<NodeId, Position>,
                          m: NodeId, n: NodeId)
    requires Lists(order, levels.Keys) && Placed(order, levels, positions)
    requires m in levels && n in levels && m != n
    ensures positions[m] != positions[n]
    ensures positions[m].x < positions[n].x <==> levels[m] < levels[n]
  {
    var i := RankOf(order, levels, positions, m);
    var j := RankOf(order, levels, positions, n);
  }

  lemma RankOf(order: seq<NodeId>, levels: map<NodeId, nat>, positions: map<NodeId, Position>, n: NodeId)
    returns (i: nat)
    requires Lists(order, levels.Keys) && Placed(order, levels, positions) && n in levels
    ensures i < |Group(order, levels, levels[n])| && Group(order, levels, levels[n])[i] == n
    ensures positions[n] == Position(levels[n] * 300 + 100, i * 180 + 150)
  {
    var group := Group(order, levels, levels[n]);
    assert n in group;
    i :| 0 <= i < |group| && group[i] == n;
  }

  method GroupByLevel(order: seq<NodeId>, levels: map<NodeId, nat>) returns (groups: map<nat, seq<NodeId>>)
    requires forall n :: n in order ==> n in levels
    ensures forall level: nat :: level in groups <==> Group(order, levels, level) != []
    ensures forall level: nat :: level in groups ==> groups[level] == Group(order, levels, level)
  {
    groups := map[];
    for k := 0 to |order|
      invariant forall level: nat :: level in groups <==> Group(order[..k], levels, level) != []
      invariant forall level: nat :: level in groups ==> groups[level] == Group(order[..k], levels, level)
    {
      var level := levels[order[k]];
      assert order[..k + 1][..k] == order[..k];
      groups := groups[level := (if level in groups then groups[level] else []) + [order[k]]];
    }
    assert order[..|order|] == order;
  }

  method Place(order: seq<NodeId>, levels: map<NodeId, nat>) returns (positions: map<NodeId, Position>)
    requires Lists(order, levels.Keys)
    ensures Placed(order, levels, positions) && RowsFollow(order, levels, positions)
  {
    var groups := GroupByLevel(order, levels);
    positions := map[];
    var todo := groups.Keys;
    while todo != {}
      invariant todo <= groups.Keys && positions.Keys <= levels.Keys
      invariant forall level: nat :: level in groups && level !in todo ==> InColumn(level, groups[level], positions)
      decreases todo
    {
      var level :| level in todo;
      GroupOnce(order, levels, level);
      ghost var before := positions;
      positions := PlaceColumn(level, groups[level], positions);
      forall l: nat | l in groups && l !in todo ensures InColumn(l, groups[l], positions) {
        assert forall i: nat :: i < |groups[l]| ==> groups[l][i] in groups[l];
        assert InColumn(l, groups[l], before);
      }
      todo := todo - {level};
    }
    ColumnsPlace(order, levels, positions);
    PlacedFollows(order, levels, positions);
  }

  lemma ColumnsPlace(order: seq<NodeId>, levels: map<NodeId, nat>, positions: map<NodeId, Position>)
    requires Lists(order, levels.Keys) && positions.Keys <= levels.Keys
    requires forall level: nat :: Group(order, levels, level) != [] ==>
      InColumn(level, Group(order, levels, level), positions)
    ensures Placed(order, levels, positions)
  {
    forall level: nat, i: nat | i < |Group(order, levels, level)|
      ensures Group(order, levels, level)[i] in positions &&
        positions[Group(order, levels, level)[i]] == Position(level * 300 + 100, i * 180 + 150)
    {
      assert InColumn(level, Group(order, levels, level), positions);
    }
    forall n | n in levels ensures n in positions {
      var group := Group(order, levels, levels[n]);
      assert n in group;
      var i :| 0 <= i < |group| && group[i] == n;
    }
  }

  ghost predicate InColumn(level: nat, group: seq<NodeId>, positions: map<NodeId, Position>) {
    forall i: nat :: i < |group| ==>
      group[i] in positions && positions[group[i]] == Position(level * 300 + 100, i * 180 + 150)
  }

  method PlaceColumn(level: nat, group: seq<NodeId>, before: map<NodeId, Position>)
    returns (positions: map<NodeId, Position>)
    requires NoRepeat(group)
    ensures positions.Keys == before.Keys + Members(group)
    ensures InColumn(level, group, positions)
    ensures forall n :: n in before && n !in group ==> positions[n] == before[n]
  {
    positions := before;
    for idx := 0 to |group|
      invariant positions.Keys == before.Keys + Members(group[..idx])
      invariant InColumn(level, group[..idx], positions)
      invariant forall n :: n in before && n !in group ==> positions[n] == before[n]
    {
      assert group[..idx + 1] == group[..idx] + [group[idx]];
      positions := positions[group[idx] := Position(level * 300 + 100, idx * 180 + 150)];
    }
    assert group[..|group|] == group;
  }

  /******* The whole layout *******/

  ghost predicate Reached(E: set<(NodeId, NodeId)>, S: set<NodeId>, v: NodeId) {
    exists k: nat :: Hops(E, S, k, v)
  }

  /** Reached nodes stand at their shortest hop distance from the roots, the others together in
      the column after the last one. */
  ghost predicate Levelled(E: set<(NodeId, NodeId)>, S: set<NodeId>, levels: map<NodeId, nat>) {
    && (forall v :: v in levels && Reached(E, S, v) ==> ShortestHops(E, S, levels[v], v))
    && (forall v, w :: v in levels && w in levels && !Reached(E, S, v) ==>
          if Reached(E, S, w) then levels[w] < levels[v] else levels[w] == levels[v])
    && (forall v :: v in levels && !Reached(E, S, v) ==>
          exists w :: w in levels && Reached(E, S, w) && levels[v] == levels[w] + 1)
  }

  ghost predicate LaidOut(ids: set<NodeId>, edges: seq<Edge>, roots: set<NodeId>, levels: map<NodeId, nat>) {
    Levelled(Known(ids, edges), roots, levels) &&
    (Acyclic(Known(ids, edges)) ==> forall v :: v in ids ==> Reached(Known(ids, edges), roots, v))
  }

  /** `levels` gives every node outside `found` the same level, one past the largest found one. */
  ghost predicate Filled(found: map<NodeId, nat>, levels: map<NodeId, nat>) {
    && (forall w :: w in found ==> w in levels && levels[w] == found[w])
    && (forall v, w :: v in levels && v !in found && w in found ==> found[w] < levels[v])
    && (forall v, w :: v in levels && v !in found && w in levels && w !in found ==> levels[v] == levels[w])
    && (found != map[] ==>
          forall v :: v in levels && v !in found ==> exists w :: w in found && levels[v] == found[w] + 1)
  }

  lemma FilledLevelled(E: set<(NodeId, NodeId)>, S: set<NodeId>, found: map<NodeId, nat>, levels: map<NodeId, nat>)
    requires Filled(found, levels)
    requires forall v :: v in found <==> v in levels && Reached(E, S, v)
    requires forall v :: v in found ==> ShortestHops(E, S, found[v], v)
    requires levels != map[] ==> found != map[]
    ensures Levelled(E, S, levels)
  {
  }

  /** The found levels, and one level for all others. */
  function FillWith(found: map<NodeId, nat>, nodes: set<NodeId>, level: nat): map<NodeId, nat> {
    map n | n in found.Keys + nodes :: if n in found then found[n] else level
  }

  lemma FillNext(found: map<NodeId, nat>, nodes: seq<NodeId>, n: NodeId, level: nat)
    ensures var levels := FillWith(found, Members(nodes), level);
      FillWith(found, Members(nodes + [n]), level) == if n in levels then levels else levels[n := level]
  {
    assert Members(nodes + [n]) == Members(nodes) + {n};
  }

  lemma OrderNext(found: map<NodeId, nat>, seen: seq<NodeId>, nodes: seq<NodeId>, n: NodeId)
    ensures var order := seen + Unseen(nodes, found.Keys);
      seen + Unseen(nodes + [n], found.Keys) == if n in found || n in nodes then order else order + [n]
  {
    UnseenAppend(nodes, n, found.Keys);
    assert seen + (Unseen(nodes, found.Keys) + [n]) == seen + Unseen(nodes, found.Keys) + [n];
    assert Unseen(nodes, found.Keys) + [] == Unseen(nodes, found.Keys);
  }

  method FillUnreached(distinct: seq<NodeId>, seen: seq<NodeId>, found: map<NodeId, nat>)
    returns (order: seq<NodeId>, levels: map<NodeId, nat>)
    requires Lists(seen, found.Keys) && found.Keys <= Members(distinct)
    ensures Lists(order, levels.Keys) && levels.Keys == Members(distinct)
    ensures order == seen + Unseen(distinct, found.Keys)
    ensures Filled(found, levels)
  {
    var last := MaxLevel(seen, found);
    order, levels := AppendUnreached(distinct, seen, found, last + 1);
    UnseenLists(seen, distinct, found.Keys);
    LastIsFilled(found, levels, last);
  }

  method AppendUnreached(distinct: seq<NodeId>, seen: seq<NodeId>, found: map<NodeId, nat>, level: nat)
    returns (order: seq<NodeId>, levels: map<NodeId, nat>)
    ensures order == seen + Unseen(distinct, found.Keys)
    ensures levels == FillWith(found, Members(distinct), level)
  {
    order, levels := seen, found;
    for i := 0 to |distinct|
      invariant order == seen + Unseen(distinct[..i], found.Keys)
      invariant levels == FillWith(found, Members(distinct[..i]), level)
    {
      var n := distinct[i];
      assert distinct[..i + 1] == distinct[..i] + [n];
      FillNext(found, distinct[..i], n, level);
      OrderNext(found, seen, distinct[..i], n);
      if n !in levels {
        levels := levels[n := level];
        order := order + [n];
      }
    }
    assert distinct[..|distinct|] == distinct;
  }

  lemma LastIsFilled(found: map<NodeId, nat>, levels: map<NodeId, nat>, last: nat)
    requires found.Keys <= levels.Keys
    requires forall n :: n in levels ==> levels[n] == if n in found then found[n] else last + 1
    requires forall n :: n in found ==> found[n] <= last
    requires found != map[] ==> exists n :: n in found && found[n] == last
    ensures Filled(found, levels)
  {
  }

  lemma UnseenLists(seen: seq<NodeId>, distinct: seq<NodeId>, keys: set<NodeId>)
    requires Lists(seen, keys)
    ensures Lists(seen + Unseen(distinct, keys), keys + Members(distinct))
  {
    UnseenHas(distinct, keys);
    var rest := Unseen(distinct, keys);
    forall i, j | 0 <= i < |seen| && 0 <= j < |rest| ensures seen[i] != rest[j] { assert rest[j] in rest; }
  }

  /** The order, by positions in the node and edge lists. The first `reached` nodes are the reached ones: the
      roots as listed, then the others by their earliest visited parent and, under the same parent, by
      their first edge from it. The unreached ones follow as listed. */
  ghost predicate OrderMeans(nodeIds: seq<NodeId>, edges: seq<Edge>, roots: seq<NodeId>,
                             order: seq<NodeId>, reached: nat)
  {
    && |roots| <= reached <= |order| && order[..|roots|] == roots && InFileOrder(nodeIds, roots)
    && ByFirstParent(edges, order[..reached], |roots|)
    && InFileOrder(nodeIds, order[reached..])
  }

  /** Every node from position `r` on has a parent in `visited`, and the first parents decide who comes first. */
  ghost predicate ByFirstParent(edges: seq<Edge>, visited: seq<NodeId>, r: nat) {
    && (forall k :: r <= k < |visited| ==> HasParent(edges, visited, visited[k]))
    && (forall p, i, a, q, j, b :: r <= p < |visited| && r <= q < |visited| && p != q ==>
          FirstParent(edges, visited, visited[p], i, a) && FirstParent(edges, visited, visited[q], j, b) ==>
          (p < q <==> i < j || (i == j && a < b)))
  }

  ghost predicate HasParent(edges: seq<Edge>, visited: seq<NodeId>, v: NodeId) {
    exists i, a :: FirstParent(edges, visited, v, i, a)
  }

  lemma RootsInOrder(nodeIds: seq<NodeId>, E: set<(NodeId, NodeId)>, roots: seq<NodeId>)
    requires IsRoots(Unseen(nodeIds, {}), E, roots)
    ensures NoRepeat(roots) && InFileOrder(nodeIds, roots)
  {
    var distinct := Unseen(nodeIds, {});
    UnseenTwice(nodeIds, {}, Targets(E));
    assert {} + Targets(E) == Targets(E);
    UnseenInOrder(nodeIds, Targets(E));
    UnseenHas(nodeIds, Targets(E));
  }

  lemma LayersQueue(ids: set<NodeId>, edges: seq<Edge>, roots: seq<NodeId>)
    requires (forall n :: n in roots ==> n in ids) && NoRepeat(roots)
    ensures var visited := Layers(ids, edges, roots, {});
      QueuesItself(ids, edges, roots, visited) && roots <= visited && NoRepeat(visited)
  {
    var visited := Layers(ids, edges, roots, {});
    VisitsAreLayers(ids, edges, roots, {});
    VisitsFixpoint(ids, edges, roots, {});
    UnseenPrefix(roots, AllSuccessors(ids, edges, visited), {});
    UnseenHas(roots + AllSuccessors(ids, edges, visited), {});
  }

  lemma HasFirstParent(ids: set<NodeId>, edges: seq<Edge>, roots: seq<NodeId>, visited: seq<NodeId>, k: nat)
    returns (i: nat, a: nat)
    requires QueuesItself(ids, edges, roots, visited) && roots <= visited && NoRepeat(visited)
    requires |roots| <= k < |visited|
    ensures visited[k] !in roots && FirstParent(edges, visited, visited[k], i, a)
  {
    UnseenHas(roots + AllSuccessors(ids, edges, visited), {});
    assert visited[k] in visited;
    forall r | 0 <= r < |roots| ensures roots[r] != visited[k] { assert visited[r] == roots[r]; }
    AllSuccessorsHave(ids, edges, visited, visited[k]);
    var m :| 0 <= m < |visited| && Edge(visited[m], visited[k]) in edges;
    i, a := FirstParentIs(edges, visited, visited[k], m);
  }

  lemma OrderMeaning(nodeIds: seq<NodeId>, edges: seq<Edge>, roots: seq<NodeId>,
                     order: seq<NodeId>, visited: seq<NodeId>)
    requires var ids := Members(Unseen(nodeIds, {}));
      && IsRoots(Unseen(nodeIds, {}), Known(ids, edges), roots) && (forall n :: n in roots ==> n in ids)
      && visited == Layers(ids, edges, roots, {})
    requires order == visited + Unseen(Unseen(nodeIds, {}), Members(visited))
    ensures OrderMeans(nodeIds, edges, roots, order, |visited|)
  {
    var ids := Members(Unseen(nodeIds, {}));
    RootsInOrder(nodeIds, Known(ids, edges), roots);
    LayersQueue(ids, edges, roots);
    UnseenTwice(nodeIds, {}, Members(visited));
    assert {} + Members(visited) == Members(visited);
    UnseenInOrder(nodeIds, Members(visited));
    assert order[..|visited|] == visited && order[|visited|..] == Unseen(nodeIds, Members(visited));
    VisitedByParent(ids, edges, roots, visited);
  }

  lemma VisitedByParent(ids: set<NodeId>, edges: seq<Edge>, roots: seq<NodeId>, visited: seq<NodeId>)
    requires QueuesItself(ids, edges, roots, visited) && roots <= visited && NoRepeat(visited)
    ensures ByFirstParent(edges, visited, |roots|)
  {
    forall k | |roots| <= k < |visited| ensures HasParent(edges, visited, visited[k]) {
      var i, a := HasFirstParent(ids, edges, roots, visited, k);
    }
    forall p, i, a, q, j, b | |roots| <= p < |visited| && |roots| <= q < |visited| && p != q
      && FirstParent(edges, visited, visited[p], i, a) && FirstParent(edges, visited, visited[q], j, b)
      ensures p < q <==> i < j || (i == j && a < b)
    {
      ParentsDecide(ids, edges, roots, visited, p, i, a, q, j, b);
    }
  }

  lemma ParentsDecide(ids: set<NodeId>, edges: seq<Edge>, roots: seq<NodeId>, visited: seq<NodeId>,
                      p: nat, i: nat, a: nat, q: nat, j: nat, b: nat)
    requires QueuesItself(ids, edges, roots, visited) && roots <= visited && NoRepeat(visited)
    requires |roots| <= p < |visited| && |roots| <= q < |visited| && p != q
    requires FirstParent(edges, visited, visited[p], i, a) && FirstParent(edges, visited, visited[q], j, b)
    ensures p < q <==> i < j || (i == j && a < b)
  {
    var i', a' := HasFirstParent(ids, edges, roots, visited, p);
    var j', b' := HasFirstParent(ids, edges, roots, visited, q);
    if i < j || (i == j && a < b) {
      EarlierParentFirst(ids, edges, roots, visited, p, i, a, q, j, b);
    } else if i != j || a != b {
      EarlierParentFirst(ids, edges, roots, visited, q, j, b, p, i, a);
    }
  }

  /** The whole layout. On an acyclic graph every node is reached. */
  method Layout(nodeIds: seq<NodeId>, edges: seq<Edge>)
    returns (distinct: seq<NodeId>, roots: seq<NodeId>, ghost reached: nat,
             order: seq<NodeId>, levels: map<NodeId, nat>, positions: map<NodeId, Position>)
    ensures distinct == Unseen(nodeIds, {}) && Lists(distinct, Members(nodeIds))
    ensures IsRoots(distinct, Known(Members(distinct), edges), roots) && forall n :: n in roots ==> n in distinct
    ensures levels.Keys == Members(distinct) && LaidOut(Members(distinct), edges, Members(roots), levels)
    ensures OrderMeans(nodeIds, edges, roots, order, reached)
    ensures forall k :: 0 <= k < |order| ==>
      (k < reached <==> Reached(Known(Members(distinct), edges), Members(roots), order[k]))
    ensures Lists(order, levels.Keys) && Placed(order, levels, positions) && RowsFollow(order, levels, positions)
  {
    distinct := Distinct(nodeIds);
    roots := FindRoots(distinct, edges);
    RootsAre(distinct, Known(Members(distinct), edges), roots);
    ghost var visited;
    order, levels, visited := AssignLevels(distinct, edges, roots);
    reached := |visited|;
    OrderMeaning(nodeIds, edges, roots, order, visited);
    positions := Place(order, levels);
  }

  method AssignLevels(distinct: seq<NodeId>, edges: seq<Edge>, roots: seq<NodeId>)
    returns (order: seq<NodeId>, levels: map<NodeId, nat>, ghost visited: seq<NodeId>)
    requires IsRoots(distinct, Known(Members(distinct), edges), roots) && forall n :: n in roots ==> n in distinct
    ensures levels.Keys == Members(distinct) && LaidOut(Members(distinct), edges, Members(roots), levels)
    ensures visited == Layers(Members(distinct), edges, roots, {})
    ensures order == visited + Unseen(distinct, Members(visited)) && Lists(order, levels.Keys)
    ensures forall k :: 0 <= k < |order| ==>
      (k < |visited| <==> Reached(Known(Members(distinct), edges), Members(roots), order[k]))
  {
    var found, seen := Search(Members(distinct), edges, roots);
    assert Members(seen) == found.Keys;
    order, levels := FillUnreached(distinct, seen, found);
    LayoutMeaning(distinct, edges, roots, found, seen, levels);
    VisitedReached(Members(distinct), edges, Members(roots), found, seen, Unseen(distinct, found.Keys));
    visited := seen;
  }

  lemma VisitedReached(ids: set<NodeId>, edges: seq<Edge>, S: set<NodeId>,
                       found: map<NodeId, nat>, seen: seq<NodeId>, others: seq<NodeId>)
    requires FindsAll(ids, Known(ids, edges), S, found, seen) && Lists(seen + others, Members(seen + others))
    ensures forall k :: 0 <= k < |seen + others| ==>
      (k < |seen| <==> Reached(Known(ids, edges), S, (seen + others)[k]))
  {
    forall k | 0 <= k < |seen + others| ensures k < |seen| <==> Reached(Known(ids, edges), S, (seen + others)[k]) {
      var v := (seen + others)[k];
      NotAgain(seen, others, k);
      if k < |seen| {
        assert v in seen && Hops(Known(ids, edges), S, found[v], v);
      }
    }
  }

  lemma NotAgain(seen: seq<NodeId>, others: seq<NodeId>, k: nat)
    requires NoRepeat(seen + others) && k < |seen + others|
    ensures k < |seen| <==> (seen + others)[k] in seen
  {
    if k >= |seen| {
      forall m | 0 <= m < |seen| ensures seen[m] != (seen + others)[k] { assert (seen + others)[m] == seen[m]; }
    }
  }

  lemma LayoutMeaning(distinct: seq<NodeId>, edges: seq<Edge>, roots: seq<NodeId>,
                      found: map<NodeId, nat>, seen: seq<NodeId>, levels: map<NodeId, nat>)
    requires levels.Keys == Members(distinct) && Filled(found, levels)
    requires IsRoots(distinct, Known(Members(distinct), edges), roots)
    requires FindsAll(Members(distinct), Known(Members(distinct), edges), Members(roots), found, seen)
    ensures LaidOut(Members(distinct), edges, Members(roots), levels)
  {
    var E, S := Known(Members(distinct), edges), Members(roots);
    RootsAre(distinct, E, roots);
    assert levels != map[] ==> roots != [] by {
      if v :| v in levels { assert v in distinct; }
    }
    FoundIsReached(E, S, roots, found, levels);
    FilledLevelled(E, S, found, levels);
    if Acyclic(E) { AllReached(distinct, edges, roots); }
  }

  lemma FoundIsReached(E: set<(NodeId, NodeId)>, S: set<NodeId>, roots: seq<NodeId>,
                       found: map<NodeId, nat>, levels: map<NodeId, nat>)
    requires S == Members(roots) && found.Keys <= levels.Keys && (levels != map[] ==> roots != [])
    requires forall v :: v in found ==> ShortestHops(E, S, found[v], v)
    requires forall k: nat, v :: Hops(E, S, k, v) ==> v in found
    ensures forall v :: v in found <==> v in levels && Reached(E, S, v)
    ensures levels != map[] ==> found != map[]
  {
    forall v ensures v in found <==> v in levels && Reached(E, S, v) {
      if v in found { assert Hops(E, S, found[v], v); }
    }
    if levels != map[] {
      assert Walk(E, 0, roots[0], roots[0]) && roots[0] in S;
      assert Hops(E, S, 0, roots[0]);
    }
  }

  lemma AllReached(distinct: seq<NodeId>, edges: seq<Edge>, roots: seq<NodeId>)
    requires IsRoots(distinct, Known(Members(distinct), edges), roots) && Acyclic(Known(Members(distinct), edges))
    ensures forall v :: v in distinct ==> Reached(Known(Members(distinct), edges), Members(roots), v)
  {
    var ids, E := Members(distinct), Known(Members(distinct), edges);
    RootsAre(distinct, E, roots);
    forall a, b | (a, b) in E ensures a in ids { KnownHas(ids, edges, a, b); }
    forall v | v in distinct ensures Reached(E, Members(roots), v) {
      var k := AcyclicReached(E, ids, Members(roots), v);
    }
  }

  /** The largest level, or 0 without any. */
  method MaxLevel(order: seq<NodeId>, levels: map<NodeId, nat>) returns (last: nat)
    requires Lists(order, levels.Keys)
    ensures forall n :: n in levels ==> levels[n] <= last
    ensures levels != map[] ==> exists n :: n in levels && levels[n] == last
  {
    last := 0;
    for i := 0 to |order|
      invariant forall j :: 0 <= j < i ==> levels[order[j]] <= last
      invariant if i == 0 then last == 0 else exists j :: 0 <= j < i && levels[order[j]] == last
    {
      if i == 0 || levels[order[i]] > last {
        last := levels[order[i]];
      }
    }
    forall n | n in levels ensures levels[n] <= last {
      var j :| 0 <= j < |order| && order[j] == n;
    }
    if levels != map[] {
      var n :| n in levels;
      assert n in order;
    }
  }
}
