/** Turning a CI file's jobs into a laid-out graph: one node per job, one edge per existing need,
    columns by longest dependency path. */
module YamlGraph {
  import opened Options
  import opened Paths
  import opened PipelineModel

  /** `needs` is one job name or a list of them. */
  datatype Needs = One(job: NodeId) | Many(jobs: seq<NodeId>)

  /** `labelParam` is the entry named `label` in the job's parameters, which overrides the default label. */
  datatype Job = Job(jobType: string, needs: Needs, labelParam: Option<NodeId>)

  /** A dictionary in insertion order. */
  datatype Jobs = Jobs(order: seq<NodeId>, config: map<NodeId, Job>)
  {
    ghost predicate Valid() {
      && (forall n :: n in order <==> n in config)
      && (forall i, j :: 0 <= i < j < |order| ==> order[i] != order[j])
    }
  }

  function NeedList(needs: Needs): seq<NodeId> {
    match needs
    case One(job) => [job]
    case Many(jobs) => jobs
  }

  predicate NeedsJob(needs: Needs, job: NodeId) {
    needs == One(job) || (needs.Many? && job in needs.jobs)
  }

  lemma NeedListHas(needs: Needs, job: NodeId)
    ensures job in NeedList(needs) <==> NeedsJob(needs, job)
  {
  }

  /** An empty name or an empty list counts as no needs at all for the level. */
  predicate NoNeeds(needs: Needs) {
    match needs
    case One(job) => job.text == ""
    case Many(jobs) => jobs == []
  }

  /** The needs that name existing jobs, as edges from the needed job. */
  ghost function NeedRel(jobs: Jobs): set<(NodeId, NodeId)> {
    set s, t | t in jobs.config && s in jobs.config && !NoNeeds(jobs.config[t].needs) &&
      s in NeedList(jobs.config[t].needs) :: (s, t)
  }

  lemma NeedRelIs(jobs: Jobs, s: NodeId, t: NodeId)
    ensures (s, t) in NeedRel(jobs) <==>
      && s in jobs.config && t in jobs.config
      && NeedsJob(jobs.config[t].needs, s) && jobs.config[t].needs != One(NodeId(""))
  {
  }

  /******* Levels *******/

  /** The longest walk that ends in `n` has `k` edges. */
  ghost predicate LongestTo(E: set<(NodeId, NodeId)>, k: nat, n: NodeId) {
    (exists m :: Walk(E, k, m, n)) && forall j: nat, m :: Walk(E, j, m, n) ==> j <= k
  }

  ghost predicate MemoValid(jobs: Jobs, levels: map<NodeId, nat>) {
    forall n :: n in levels ==> n in jobs.config && LongestTo(NeedRel(jobs), levels[n], n)
  }

  ghost predicate Extends(memo: map<NodeId, nat>, levels: map<NodeId, nat>) {
    forall n :: n in memo ==> n in levels && levels[n] == memo[n]
  }

  /** One more than the deepest direct predecessor. */
  lemma LevelFromParents(E: set<(NodeId, NodeId)>, n: NodeId, maxParent: int, levels: map<NodeId, nat>)
    requires -1 <= maxParent
    requires forall m :: (m, n) in E ==> m in levels && LongestTo(E, levels[m], m) && levels[m] <= maxParent
    requires maxParent >= 0 ==> exists m :: (m, n) in E && levels[m] == maxParent
    ensures LongestTo(E, (maxParent + 1) as nat, n)
  {
    if maxParent >= 0 {
      var m :| (m, n) in E && levels[m] == maxParent;
      var r :| Walk(E, levels[m], r, m);
      WalkOne(E, m, n);
      WalkConcat(E, levels[m], 1, r, m, n);
    } else {
      assert Walk(E, 0, n, n);
    }
    forall j: nat, m | Walk(E, j, m, n) ensures j <= maxParent + 1 {
      if j > 0 {
        var c := WalkLast(E, j, m, n);
      }
    }
  }

  lemma LongestUnique(E: set<(NodeId, NodeId)>, j: nat, k: nat, n: NodeId)
    requires LongestTo(E, j, n) && LongestTo(E, k, n)
    ensures j == k
  {
  }

  /** The deepest of these jobs has this level, and all of them are known; without any it is -1. */
  ghost predicate Deepest(jobs: Jobs, levels: map<NodeId, nat>, seen: seq<NodeId>, deepest: int) {
    && -1 <= deepest
    && (forall m :: m in seen && m in jobs.config ==> m in levels && levels[m] <= deepest)
    && (deepest >= 0 ==> exists m :: m in seen && m in jobs.config && m in levels && levels[m] == deepest)
  }

  lemma DeepestNext(jobs: Jobs, before: map<NodeId, nat>, levels: map<NodeId, nat>, seen: seq<NodeId>, deepest: int,
                    n: NodeId)
    requires Deepest(jobs, before, seen, deepest) && Extends(before, levels) && n in jobs.config && n in levels
    ensures Deepest(jobs, levels, seen + [n], if levels[n] > deepest then levels[n] else deepest)
  {
    if deepest >= 0 {
      var m :| m in seen && m in jobs.config && m in before && before[m] == deepest;
      assert m in seen + [n] && m in levels && levels[m] == deepest;
    }
    assert n in seen + [n];
  }

  lemma DeepestIsLongest(jobs: Jobs, levels: map<NodeId, nat>, n: NodeId, deepest: int)
    requires n in jobs.config && MemoValid(jobs, levels)
    requires Deepest(jobs, levels, if NoNeeds(jobs.config[n].needs) then [] else NeedList(jobs.config[n].needs),
                     deepest)
    ensures LongestTo(NeedRel(jobs), (deepest + 1) as nat, n)
  {
    LevelFromParents(NeedRel(jobs), n, deepest, levels);
  }

  /******* The graph *******/

  datatype GraphNode = GraphNode(id: NodeId, nodeType: string, nodeLabel: NodeId, x: int, y: int)

  function LabelOf(jobs: Jobs, n: NodeId): NodeId
    requires n in jobs.config
  {
    match jobs.config[n].labelParam
    case None => n
    case Some(text) => text
  }

  /** The edges one job contributes: its needs that exist, in order. */
  function EdgesInto(jobs: Jobs, needs: seq<NodeId>, target: NodeId): seq<Edge> {
    if needs == [] then []
    else (if needs[0] in jobs.config then [Edge(needs[0], target)] else []) + EdgesInto(jobs, needs[1..], target)
  }

  function EdgesOf(jobs: Jobs, targets: seq<NodeId>): seq<Edge>
    requires forall n :: n in targets ==> n in jobs.config
  {
    if targets == [] then []
    else
      var front, last := targets[..|targets| - 1], targets[|targets| - 1];
      assert targets == front + [last];
      EdgesOf(jobs, front) + EdgesInto(jobs, NeedList(jobs.config[last].needs), last)
  }

  /** `at[k]` is the position of the job that the edge `edges[k]` leads to, and of its need there. */
  ghost predicate EdgesFollow(jobs: Jobs, edges: seq<Edge>, at: seq<(nat, nat)>) {
    && |at| == |edges|
    && (forall k :: 0 <= k < |at| ==> NeedAt(jobs, at[k].0, at[k].1, edges[k]))
    && (forall k, l :: 0 <= k < l < |at| ==> Before(at[k], at[l]))
    && (forall i: nat, j: nat, e :: NeedAt(jobs, i, j, e) ==> (i, j) in at)
  }

  /** `e` leads from the `j`-th need of the `i`-th job, which exists, to that job. */
  ghost predicate NeedAt(jobs: Jobs, i: nat, j: nat, e: Edge) {
    && i < |jobs.order| && jobs.order[i] == e.target && e.target in jobs.config && e.source in jobs.config
    && match jobs.config[e.target].needs
       case One(job) => j == 0 && job == e.source
       case Many(list) => j < |list| && list[j] == e.source
  }

  predicate Before(p: (nat, nat), q: (nat, nat)) {
    p.0 < q.0 || (p.0 == q.0 && p.1 < q.1)
  }

  /** `js[k]` is the position in `needs` of the source of `edges[k]`. */
  ghost predicate NeedsFollow(jobs: Jobs, needs: seq<NodeId>, target: NodeId, edges: seq<Edge>, js: seq<nat>) {
    && |js| == |edges|
    && (forall k :: 0 <= k < |js| ==>
          js[k] < |needs| && needs[js[k]] in jobs.config && edges[k] == Edge(needs[js[k]], target))
    && Rising(js)
    && (forall j :: 0 <= j < |needs| && needs[j] in jobs.config ==> j in js)
  }

  predicate Rising(js: seq<nat>) {
    forall k, l :: 0 <= k < l < |js| ==> js[k] < js[l]
  }

  function Shifted(js: seq<nat>): (r: seq<nat>)
    ensures |r| == |js| && forall k :: 0 <= k < |r| ==> r[k] == js[k] + 1
  {
    seq(|js|, k requires 0 <= k < |js| => js[k] + 1)
  }

  lemma {:induction false} IntoFollows(jobs: Jobs, needs: seq<NodeId>, target: NodeId) returns (js: seq<nat>)
    ensures NeedsFollow(jobs, needs, target, EdgesInto(jobs, needs, target), js)
  {
    if needs == [] {
      js := [];
    } else {
      var rest := IntoFollows(jobs, needs[1..], target);
      var edges := EdgesInto(jobs, needs[1..], target);
      if needs[0] in jobs.config {
        js := [0] + Shifted(rest);
        TakeNeed(jobs, needs, target, edges, rest);
      } else {
        js := Shifted(rest);
        DropNeed(jobs, needs, target, edges, rest);
        assert [] + edges == edges;
      }
    }
  }

  lemma TakeNeed(jobs: Jobs, needs: seq<NodeId>, target: NodeId, edges: seq<Edge>, rest: seq<nat>)
    requires needs != [] && NeedsFollow(jobs, needs[1..], target, edges, rest) && needs[0] in jobs.config
    ensures NeedsFollow(jobs, needs, target, [Edge(needs[0], target)] + edges, [0] + Shifted(rest))
  {
    var js, all := [0] + Shifted(rest), [Edge(needs[0], target)] + edges;
    ShiftedRises(rest);
    forall k | 0 <= k < |js|
      ensures js[k] < |needs| && needs[js[k]] in jobs.config && all[k] == Edge(needs[js[k]], target)
    {
      if k > 0 { assert js[k] == rest[k - 1] + 1 && needs[js[k]] == needs[1..][rest[k - 1]]; }
    }
    forall j | 0 <= j < |needs| && needs[j] in jobs.config ensures j in js {
      if j > 0 {
        var k := PositionBehind(jobs, needs, rest, j);
        assert js[k + 1] == j;
      } else {
        assert js[0] == 0;
      }
    }
  }

  lemma ShiftedRises(js: seq<nat>)
    requires Rising(js)
    ensures Rising([0] + Shifted(js))
  {
  }

  lemma DropNeed(jobs: Jobs, needs: seq<NodeId>, target: NodeId, edges: seq<Edge>, rest: seq<nat>)
    requires needs != [] && NeedsFollow(jobs, needs[1..], target, edges, rest) && needs[0] !in jobs.config
    ensures NeedsFollow(jobs, needs, target, edges, Shifted(rest))
  {
    forall j | 0 <= j < |needs| && needs[j] in jobs.config ensures j in Shifted(rest) {
      var k := PositionBehind(jobs, needs, rest, j);
      assert Shifted(rest)[k] == j;
    }
  }

  lemma PositionBehind(jobs: Jobs, needs: seq<NodeId>, rest: seq<nat>, j: nat) returns (k: nat)
    requires 0 < j < |needs| && needs[j] in jobs.config
    requires forall i :: 0 <= i < |needs[1..]| && needs[1..][i] in jobs.config ==> i in rest
    ensures k < |rest| && rest[k] + 1 == j
  {
    assert needs[1..][j - 1] == needs[j];
    k :| 0 <= k < |rest| && rest[k] == j - 1;
  }

  /** The edges as listed: job by job, each job's needs in their order, unknown ones left out, repeated
      ones repeated. */
  lemma {:induction false} EdgesAsListed(jobs: Jobs, n: nat) returns (at: seq<(nat, nat)>)
    requires jobs.Valid() && n <= |jobs.order|
    ensures EdgesFollow(Jobs(jobs.order[..n], jobs.config), EdgesOf(jobs, jobs.order[..n]), at)
  {
    if n == 0 {
      at := [];
    } else {
      var front := EdgesAsListed(jobs, n - 1);
      var target := jobs.order[n - 1];
      var needs := NeedList(jobs.config[target].needs);
      var js := IntoFollows(jobs, needs, target);
      at := front + seq(|js|, k requires 0 <= k < |js| => (n - 1, js[k]));
      assert jobs.order[..n][..n - 1] == jobs.order[..n - 1];
      JobFollows(jobs, n, EdgesOf(jobs, jobs.order[..n - 1]), front, EdgesInto(jobs, needs, target), js);
    }
  }

  lemma JobFollows(jobs: Jobs, n: nat, edges: seq<Edge>, front: seq<(nat, nat)>, into: seq<Edge>, js: seq<nat>)
    requires jobs.Valid() && 0 < n <= |jobs.order|
    requires EdgesFollow(Jobs(jobs.order[..n - 1], jobs.config), edges, front)
    requires NeedsFollow(jobs, NeedList(jobs.config[jobs.order[n - 1]].needs), jobs.order[n - 1], into, js)
    ensures EdgesFollow(Jobs(jobs.order[..n], jobs.config), edges + into,
                        front + seq(|js|, k requires 0 <= k < |js| => (n - 1, js[k])))
  {
    var some, more := Jobs(jobs.order[..n - 1], jobs.config), Jobs(jobs.order[..n], jobs.config);
    var last := seq(|js|, k requires 0 <= k < |js| => (n - 1, js[k]));
    var at, all := front + last, edges + into;
    forall k | 0 <= k < |at| ensures NeedAt(more, at[k].0, at[k].1, all[k]) {
      if k < |front| {
        assert NeedAt(some, front[k].0, front[k].1, edges[k]);
      }
    }
    forall k, l | 0 <= k < l < |at| ensures Before(at[k], at[l]) {
      if k < |front| <= l { assert NeedAt(some, front[k].0, front[k].1, edges[k]); }
    }
    forall i: nat, j: nat, e | NeedAt(more, i, j, e) ensures (i, j) in at {
      if i < n - 1 {
        assert NeedAt(some, i, j, e);
      } else {
        assert NeedList(jobs.config[e.target].needs)[j] == e.source;
        assert j in js;
        var k :| 0 <= k < |js| && js[k] == j;
        assert last[k] == (i, j) && last[k] in last;
      }
    }
  }

  /** So the edges are exactly the needs that exist. */
  lemma EdgesAreNeeds(jobs: Jobs)
    requires jobs.Valid()
    ensures forall e :: e in EdgesOf(jobs, jobs.order) <==>
      && e.source in jobs.config && e.target in jobs.config
      && NeedsJob(jobs.config[e.target].needs, e.source)
  {
    var edges := EdgesOf(jobs, jobs.order);
    var at := EdgesAsListed(jobs, |jobs.order|);
    assert jobs.order[..|jobs.order|] == jobs.order;
    forall e: Edge
      ensures e in edges <==>
        && e.source in jobs.config && e.target in jobs.config
        && NeedsJob(jobs.config[e.target].needs, e.source)
    {
      if e in edges {
        var k :| 0 <= k < |edges| && edges[k] == e;
        assert NeedAt(jobs, at[k].0, at[k].1, e);
      }
      if e.source in jobs.config && e.target in jobs.config && NeedsJob(jobs.config[e.target].needs, e.source) {
        NeedIsEdge(jobs, edges, at, e);
      }
    }
  }

  lemma NeedIsEdge(jobs: Jobs, edges: seq<Edge>, at: seq<(nat, nat)>, e: Edge)
    requires jobs.Valid() && EdgesFollow(jobs, edges, at) && e.source in jobs.config && e.target in jobs.config
    requires NeedsJob(jobs.config[e.target].needs, e.source)
    ensures e in edges
  {
    var i, j := PositionOf(jobs, e);
    var k :| 0 <= k < |at| && at[k] == (i, j);
    assert NeedAt(jobs, i, j, edges[k]) && edges[k] == e;
  }

  lemma PositionOf(jobs: Jobs, e: Edge) returns (i: nat, j: nat)
    requires jobs.Valid() && e.source in jobs.config && e.target in jobs.config
    requires NeedsJob(jobs.config[e.target].needs, e.source)
    ensures NeedAt(jobs, i, j, e)
  {
    i :| 0 <= i < |jobs.order| && jobs.order[i] == e.target;
    match jobs.config[e.target].needs
    case One(_) => j := 0;
    case Many(list) => j :| 0 <= j < |list| && list[j] == e.source;
  }

  /** The column a label stands for: the depth of the job of that name, or 0. */
  function Column(levels: map<NodeId, nat>, text: NodeId): nat {
    if text in levels then levels[text] else 0
  }

  /** How many of the first nodes share this column. */
  function Above(columns: seq<nat>, column: nat): nat {
    if columns == [] then 0
    else Above(columns[..|columns| - 1], column) + (if columns[|columns| - 1] == column then 1 else 0)
  }

  function Columns(levels: map<NodeId, nat>, nodes: seq<GraphNode>): (r: seq<nat>)
    ensures |r| == |nodes| && forall i :: 0 <= i < |r| ==> r[i] == Column(levels, nodes[i].nodeLabel)
  {
    if nodes == [] then [] else [Column(levels, nodes[0].nodeLabel)] + Columns(levels, nodes[1..])
  }

  /** The node of a job before it has a place. */
  function NodeOf(jobs: Jobs, n: NodeId): GraphNode
    requires n in jobs.config
  {
    GraphNode(n, jobs.config[n].jobType, LabelOf(jobs, n), 0, 0)
  }

  function NodesOf(jobs: Jobs, names: seq<NodeId>): (r: seq<GraphNode>)
    requires forall n :: n in names ==> n in jobs.config
    ensures |r| == |names| && forall i :: 0 <= i < |r| ==> r[i] == NodeOf(jobs, names[i])
  {
    if names == [] then [] else [NodeOf(jobs, names[0])] + NodesOf(jobs, names[1..])
  }

  /** Each node in its label's column, below the earlier nodes there. */
  ghost predicate Placed(columns: seq<nat>, nodes: seq<GraphNode>, placed: seq<GraphNode>) {
    |placed| == |nodes| == |columns| && forall i :: 0 <= i < |nodes| ==>
      placed[i] == nodes[i].(x := columns[i] * 250, y := Above(columns[..i], columns[i]) * 100)
  }

  /** The levels are the longest-path depths of all jobs. */
  ghost predicate Depths(jobs: Jobs, levels: map<NodeId, nat>) {
    MemoValid(jobs, levels) && levels.Keys == jobs.config.Keys
  }

  /** One node per job, placed by the columns of their labels. */
  ghost predicate Drawn(jobs: Jobs, levels: map<NodeId, nat>, nodes: seq<GraphNode>)
    requires jobs.Valid()
  {
    var bare := NodesOf(jobs, jobs.order);
    Placed(Columns(levels, bare), bare, nodes)
  }

  class YamlToGraphParser {
    const data: Option<Jobs>
    var nodes: seq<GraphNode>
    var edges: seq<Edge>
    var levels: map<NodeId, nat>

    constructor (data: Option<Jobs>)
      ensures this.data == data && Unparsed()
    {
      this.data, nodes, edges, levels := data, [], [], map[];
    }

    ghost predicate Unparsed()
      reads this
    {
      nodes == [] && edges == [] && levels == map[]
    }

    /** On cyclic needs the source's recursion never returns, so acyclic needs are required here. */
    method Parse()
      requires Unparsed()
      requires data.Some? ==> data.value.Valid() && Acyclic(NeedRel(data.value))
      modifies this
      ensures data.None? ==> nodes == [] && edges == []
      ensures data.Some? ==>
        && edges == EdgesOf(data.value, data.value.order)
        && (forall e :: e in edges <==>
              && e.source in data.value.config && e.target in data.value.config
              && NeedsJob(data.value.config[e.target].needs, e.source))
        && Depths(data.value, levels)
        && Drawn(data.value, levels, nodes)
    {
      if data.None? {
        return;
      }
      var jobs := data.value;
      CreateNodes(jobs);
      CreateEdges(jobs);
      AutoLayout(jobs);
      EdgesAreNeeds(jobs);
    }

    method CreateNodes(jobs: Jobs)
      requires jobs.Valid() && nodes == []
      modifies this`nodes
      ensures nodes == NodesOf(jobs, jobs.order)
    {
      for i := 0 to |jobs.order|
        invariant |nodes| == i && forall k :: 0 <= k < i ==> nodes[k] == NodeOf(jobs, jobs.order[k])
      {
        var name := jobs.order[i];
        nodes := nodes + [GraphNode(name, jobs.config[name].jobType, LabelOf(jobs, name), 0, 0)];
      }
    }

    method CreateEdges(jobs: Jobs)
      requires jobs.Valid() && edges == []
      modifies this`edges
      ensures edges == EdgesOf(jobs, jobs.order)
    {
      for i := 0 to |jobs.order|
        invariant edges == EdgesOf(jobs, jobs.order[..i])
      {
        assert jobs.order[..i + 1][..i] == jobs.order[..i];
        edges := edges + EdgesInto(jobs, NeedList(jobs.config[jobs.order[i]].needs), jobs.order[i]);
      }
      assert jobs.order[..|jobs.order|] == jobs.order;
    }

    /** Levels first, then positions. */
    method AutoLayout(jobs: Jobs)
      requires jobs.Valid() && Acyclic(NeedRel(jobs)) && levels == map[]
      modifies this`nodes, this`levels
      ensures Depths(jobs, levels)
      ensures Placed(Columns(levels, old(nodes)), old(nodes), nodes)
    {
      for i := 0 to |jobs.order|
        invariant MemoValid(jobs, levels) && forall k :: 0 <= k < i ==> jobs.order[k] in levels
        invariant nodes == old(nodes)
      {
        var level := GetLevel(jobs, jobs.order[i]);
      }
      forall n | n in jobs.config ensures n in levels {
        var i :| 0 <= i < |jobs.order| && jobs.order[i] == n;
      }
      PlaceNodes();
    }

    /** The memoised recursion: it ends on acyclic needs and finds longest-path depth. */
    method GetLevel(jobs: Jobs, name: NodeId) returns (level: nat)
      requires name in jobs.config && Acyclic(NeedRel(jobs)) && MemoValid(jobs, levels)
      modifies this`levels
      ensures MemoValid(jobs, levels) && Extends(old(levels), levels)
      ensures name in levels && levels[name] == level
      decreases Ancestors(NeedRel(jobs), jobs.config.Keys, name)
    {
      ghost var E := NeedRel(jobs);
      if name in levels {
        return levels[name];
      }
      var needs := jobs.config[name].needs;
      var maxParentLevel: int := -1;
      if !NoNeeds(needs) {
        var list := NeedList(needs);
        for i := 0 to |list|
          invariant MemoValid(jobs, levels) && Extends(old(levels), levels)
          invariant Deepest(jobs, levels, list[..i], maxParentLevel)
        {
          assert list[..i + 1] == list[..i] + [list[i]];
          if list[i] in jobs.config {
            assert (list[i], name) in E;
            FewerAncestors(E, jobs.config.Keys, list[i], name);
            ghost var before := levels;
            var parentLevel := GetLevel(jobs, list[i]);
            DeepestNext(jobs, before, levels, list[..i], maxParentLevel, list[i]);
            maxParentLevel := if parentLevel > maxParentLevel then parentLevel else maxParentLevel;
          }
        }
        assert list[..|list|] == list;
      }
      level := maxParentLevel + 1;
      DeepestIsLongest(jobs, levels, name, maxParentLevel);
      if name in levels { LongestUnique(E, levels[name], level, name); }
      levels := levels[name := level];
    }

    method PlaceNodes()
      modifies this`nodes
      ensures Placed(Columns(levels, old(nodes)), old(nodes), nodes)
    {
      var levelCounts: map<nat, nat> := map[];
      ghost var bare, columns := nodes, Columns(levels, nodes);
      for i := 0 to |nodes|
        invariant Counts(levelCounts, columns[..i])
        invariant PlacedFirst(columns, bare, nodes, i)
      {
        var level := Column(levels, nodes[i].nodeLabel);
        var above := Count(levelCounts, level);
        PlaceNext(levels, levelCounts, columns, bare, nodes, i);
        nodes := nodes[i := nodes[i].(x := level * 250, y := above * 100)];
        levelCounts := levelCounts[level := above + 1];
      }
    }
  }

  /** The first `n` nodes have their places, the others are as they were. */
  ghost predicate PlacedFirst(columns: seq<nat>, bare: seq<GraphNode>, nodes: seq<GraphNode>, n: nat) {
    && n <= |nodes| == |bare| == |columns|
    && (forall k :: n <= k < |bare| ==> nodes[k] == bare[k])
    && forall k :: 0 <= k < n ==>
         nodes[k] == bare[k].(x := columns[k] * 250, y := Above(columns[..k], columns[k]) * 100)
  }

  lemma PlaceNext(levels: map<NodeId, nat>, counts: map<nat, nat>, columns: seq<nat>,
                  bare: seq<GraphNode>, nodes: seq<GraphNode>, n: nat)
    requires columns == Columns(levels, bare) && n < |nodes|
    requires PlacedFirst(columns, bare, nodes, n) && Counts(counts, columns[..n])
    ensures var level := Column(levels, nodes[n].nodeLabel);
      var placed := nodes[n].(x := level * 250, y := Count(counts, level) * 100);
      && PlacedFirst(columns, bare, nodes[n := placed], n + 1)
      && Counts(counts[level := Count(counts, level) + 1], columns[..n + 1])
  {
    assert Count(counts, columns[n]) == Above(columns[..n], columns[n]);
    assert columns[..n + 1] == columns[..n] + [columns[n]];
    CountsNext(counts, columns[..n], columns[n]);
    PutNext(columns, bare, nodes, n);
  }

  lemma PutNext(columns: seq<nat>, bare: seq<GraphNode>, nodes: seq<GraphNode>, n: nat)
    requires PlacedFirst(columns, bare, nodes, n) && n < |nodes|
    ensures var placed := bare[n].(x := columns[n] * 250, y := Above(columns[..n], columns[n]) * 100);
      nodes[n] == bare[n] && PlacedFirst(columns, bare, nodes[n := placed], n + 1)
  {
  }

  ghost predicate Counts(counts: map<nat, nat>, columns: seq<nat>) {
    forall c: nat :: Count(counts, c) == Above(columns, c)
  }

  lemma CountsNext(counts: map<nat, nat>, columns: seq<nat>, c: nat)
    requires Counts(counts, columns)
    ensures Counts(counts[c := Count(counts, c) + 1], columns + [c])
  {
    var more, counted := columns + [c], counts[c := Count(counts, c) + 1];
    assert more[..|columns|] == columns && more[|columns|] == c;
    forall d: nat ensures Count(counted, d) == Above(more, d) {
      assert Above(more, d) == Above(columns, d) + if d == c then 1 else 0;
      assert Count(counts, d) == Above(columns, d);
    }
  }

  function Count(counts: map<nat, nat>, c: nat): nat {
    if c in counts then counts[c] else 0
  }

  /******* What the drawing promises *******/

  lemma {:induction false} AboveGrows(columns: seq<nat>, i: nat, j: nat, c: nat)
    requires i < j <= |columns| && columns[i] == c
    ensures Above(columns[..i], c) < Above(columns[..j], c)
    decreases j
  {
    assert columns[..j][..j - 1] == columns[..j - 1];
    if i == j - 1 {
    } else {
      AboveGrows(columns, i, j - 1, c);
    }
  }

  /** No two nodes share a place, whatever the labels. */
  lemma {:induction false} PlacesDistinct(jobs: Jobs, levels: map<NodeId, nat>, nodes: seq<GraphNode>, i: nat, j: nat)
    requires jobs.Valid() && Drawn(jobs, levels, nodes) && i < j < |nodes|
    ensures (nodes[i].x, nodes[i].y) != (nodes[j].x, nodes[j].y)
  {
    var columns := Columns(levels, NodesOf(jobs, jobs.order));
    if columns[i] == columns[j] { AboveGrows(columns, i, j, columns[i]); }
  }

  lemma {:induction false} AboveGap(columns: seq<nat>, p: nat, q: nat, c: nat)
    requires p <= q <= |columns| && forall k :: p <= k < q ==> columns[k] != c
    ensures Above(columns[..q], c) == Above(columns[..p], c)
    decreases q
  {
    if p < q {
      assert columns[..q][..q - 1] == columns[..q - 1];
      AboveGap(columns, p, q - 1, c);
    }
  }

  /** The label defaults to the job's name. */
  predicate Depicts(node: GraphNode, job: Job) {
    && node.nodeType == job.jobType
    && Some(node.nodeLabel) == if job.labelParam == None then Some(node.id) else job.labelParam
  }

  /** One node per job, in order, with its type and label. The label's depth gives the column; a column
      starts at the top, and each further node stands one row below the last earlier one. */
  lemma DrawnMeans(jobs: Jobs, levels: map<NodeId, nat>, nodes: seq<GraphNode>)
    requires jobs.Valid() && Drawn(jobs, levels, nodes)
    ensures |nodes| == |jobs.order|
    ensures forall k :: 0 <= k < |nodes| ==>
      && nodes[k].id == jobs.order[k] && Depicts(nodes[k], jobs.config[jobs.order[k]])
      && nodes[k].x == if nodes[k].nodeLabel in levels then levels[nodes[k].nodeLabel] * 250 else 0
    ensures forall j :: 0 <= j < |nodes| && NoneAt(nodes, 0, j, nodes[j].x) ==> nodes[j].y == 0
    ensures forall i, j :: 0 <= i < j < |nodes| && nodes[i].x == nodes[j].x ==>
      NoneAt(nodes, i + 1, j, nodes[j].x) ==> nodes[j].y == nodes[i].y + 100
  {
    var bare := NodesOf(jobs, jobs.order);
    PlacedFollows(Columns(levels, bare), bare, nodes);
    forall k | 0 <= k < |nodes|
      ensures nodes[k].id == jobs.order[k] && Depicts(nodes[k], jobs.config[jobs.order[k]])
      ensures nodes[k].x == if nodes[k].nodeLabel in levels then levels[nodes[k].nodeLabel] * 250 else 0
    {
      NodeIs(jobs, levels, nodes, k);
    }
  }

  lemma NodeIs(jobs: Jobs, levels: map<NodeId, nat>, nodes: seq<GraphNode>, k: nat)
    requires jobs.Valid() && Drawn(jobs, levels, nodes) && k < |nodes|
    ensures |nodes| == |jobs.order|
    ensures nodes[k].id == jobs.order[k] && Depicts(nodes[k], jobs.config[jobs.order[k]])
    ensures nodes[k].x == if nodes[k].nodeLabel in levels then levels[nodes[k].nodeLabel] * 250 else 0
  {
    var bare := NodesOf(jobs, jobs.order);
    assert nodes[k] == bare[k].(x := nodes[k].x, y := nodes[k].y);
  }

  lemma PlacedFollows(columns: seq<nat>, bare: seq<GraphNode>, nodes: seq<GraphNode>)
    requires Placed(columns, bare, nodes)
    ensures forall j :: 0 <= j < |nodes| && NoneAt(nodes, 0, j, nodes[j].x) ==> nodes[j].y == 0
    ensures forall i, j :: 0 <= i < j < |nodes| && nodes[i].x == nodes[j].x ==>
      NoneAt(nodes, i + 1, j, nodes[j].x) ==> nodes[j].y == nodes[i].y + 100
  {
    forall j | 0 <= j < |nodes| && NoneAt(nodes, 0, j, nodes[j].x) ensures nodes[j].y == 0 {
      RowAfter(columns, nodes, 0, j);
    }
    forall i, j | 0 <= i < j < |nodes| && nodes[i].x == nodes[j].x && NoneAt(nodes, i + 1, j, nodes[j].x)
      ensures nodes[j].y == nodes[i].y + 100
    {
      OneRowDown(columns, bare, nodes, i, j);
    }
  }

  lemma OneRowDown(columns: seq<nat>, bare: seq<GraphNode>, nodes: seq<GraphNode>, i: nat, j: nat)
    requires Placed(columns, bare, nodes) && i < j < |nodes|
    requires nodes[i].x == nodes[j].x && NoneAt(nodes, i + 1, j, nodes[j].x)
    ensures nodes[j].y == nodes[i].y + 100
  {
    RowAfter(columns, nodes, i + 1, j);
    assert columns[..i + 1][..i] == columns[..i];
  }

  /** No node from position `p` up to `q` stands in this column. */
  ghost predicate NoneAt(nodes: seq<GraphNode>, p: nat, q: nat, x: int) {
    forall k :: p <= k < q && k < |nodes| ==> nodes[k].x != x
  }

  lemma RowAfter(columns: seq<nat>, nodes: seq<GraphNode>, p: nat, q: nat)
    requires |nodes| == |columns| && forall k :: 0 <= k < |nodes| ==> nodes[k].x == columns[k] * 250
    requires p <= q < |nodes| && NoneAt(nodes, p, q, nodes[q].x)
    ensures Above(columns[..q], columns[q]) == Above(columns[..p], columns[q])
  {
    forall k | p <= k < q ensures columns[k] != columns[q] { assert nodes[k].x != nodes[q].x; }
    AboveGap(columns, p, q, columns[q]);
  }

  /** The depth a label stands for: the longest path to the job of that name, or 0 without such a job. */
  ghost predicate LabelDepth(jobs: Jobs, text: NodeId, k: nat) {
    if text in jobs.config then LongestTo(NeedRel(jobs), k, text) else k == 0
  }

  /** The column of a label is its depth, and there is only one. */
  lemma ColumnIsDepth(jobs: Jobs, levels: map<NodeId, nat>, text: NodeId, k: nat)
    requires Depths(jobs, levels)
    ensures LabelDepth(jobs, text, k) <==> k == Column(levels, text)
  {
    if text in jobs.config && LongestTo(NeedRel(jobs), k, text) {
      LongestUnique(NeedRel(jobs), k, levels[text], text);
    }
  }

  /** Every edge joins two nodes of the graph and is one of the existing needs. It goes strictly left to
      right exactly when the jobs its ends' labels name are of rising depth; with the default labels,
      exactly when the needs are not written as one empty name. */
  lemma {:induction false} EdgesGoRight(jobs: Jobs, levels: map<NodeId, nat>, nodes: seq<GraphNode>, e: Edge)
    returns (i: nat, j: nat)
    requires jobs.Valid() && Depths(jobs, levels) && Drawn(jobs, levels, nodes) && e in EdgesOf(jobs, jobs.order)
    ensures i < |nodes| && j < |nodes| && nodes[i].id == e.source && nodes[j].id == e.target
    ensures e.source in jobs.config && e.target in jobs.config && NeedsJob(jobs.config[e.target].needs, e.source)
    ensures exists k: nat, l: nat ::
      LabelDepth(jobs, LabelOf(jobs, e.source), k) && LabelDepth(jobs, LabelOf(jobs, e.target), l)
    ensures forall k: nat, l: nat ::
      LabelDepth(jobs, LabelOf(jobs, e.source), k) && LabelDepth(jobs, LabelOf(jobs, e.target), l) ==>
      (nodes[i].x < nodes[j].x <==> k < l)
    ensures LabelOf(jobs, e.source) == e.source && LabelOf(jobs, e.target) == e.target ==>
      (nodes[i].x < nodes[j].x <==> jobs.config[e.target].needs != One(NodeId("")))
  {
    EdgesAreNeeds(jobs);
    i := NodeAt(jobs, levels, nodes, e.source);
    j := NodeAt(jobs, levels, nodes, e.target);
    DepthRises(jobs, levels, e.source, e.target);
    var a, b := LabelOf(jobs, e.source), LabelOf(jobs, e.target);
    forall k: nat ensures LabelDepth(jobs, a, k) <==> k == Column(levels, a) { ColumnIsDepth(jobs, levels, a, k); }
    forall l: nat ensures LabelDepth(jobs, b, l) <==> l == Column(levels, b) { ColumnIsDepth(jobs, levels, b, l); }
    assert LabelDepth(jobs, a, Column(levels, a)) && LabelDepth(jobs, b, Column(levels, b));
  }

  /** The node of a job stands in the column of its label. */
  lemma {:induction false} NodeAt(jobs: Jobs, levels: map<NodeId, nat>, nodes: seq<GraphNode>, n: NodeId)
    returns (i: nat)
    requires jobs.Valid() && Drawn(jobs, levels, nodes) && n in jobs.config
    ensures i < |nodes| && nodes[i].id == n && nodes[i].x == Column(levels, LabelOf(jobs, n)) * 250
  {
    i :| 0 <= i < |jobs.order| && jobs.order[i] == n;
    assert NodesOf(jobs, jobs.order)[i] == NodeOf(jobs, n);
  }

  /** A needed job is less deep, unless the needs are one empty name: those count as none. */
  lemma {:induction false} DepthRises(jobs: Jobs, levels: map<NodeId, nat>, s: NodeId, t: NodeId)
    requires Depths(jobs, levels) && s in jobs.config && t in jobs.config
    requires NeedsJob(jobs.config[t].needs, s)
    ensures levels[s] < levels[t] <==> !NoNeeds(jobs.config[t].needs)
    ensures NoNeeds(jobs.config[t].needs) <==> jobs.config[t].needs == One(NodeId(""))
  {
    var E := NeedRel(jobs);
    if NoNeeds(jobs.config[t].needs) {
      var m :| Walk(E, levels[t], m, t);
      if levels[t] > 0 {
        var c := WalkLast(E, levels[t], m, t);
      }
    } else {
      assert (s, t) in E;
      var m :| Walk(E, levels[s], m, s);
      WalkOne(E, s, t);
      WalkConcat(E, levels[s], 1, m, s, t);
    }
  }

  /** A `label` parameter can draw an edge backwards: b needs a, but a is labelled b. */
  lemma LabelCanReverse()
    ensures var a, b := NodeId("a"), NodeId("b");
      var jobs := Jobs([a, b], map[a := Job("", Many([]), Some(b)), b := Job("", One(a), Some(a))]);
      && jobs.Valid() && Acyclic(NeedRel(jobs)) && Edge(a, b) in EdgesOf(jobs, jobs.order)
      && forall levels :: Depths(jobs, levels) ==>
           Column(levels, LabelOf(jobs, b)) < Column(levels, LabelOf(jobs, a))
  {
    var a, b := NodeId("a"), NodeId("b");
    var jobs := Jobs([a, b], map[a := Job("", Many([]), Some(b)), b := Job("", One(a), Some(a))]);
    var E := NeedRel(jobs);
    assert a.text != b.text;
    assert forall s, t :: (s, t) in E <==> s == a && t == b;
    forall k: nat, s, t | Walk(E, k, s, t) && 0 < k ensures s == a && t == b {
      var c :| (s, c) in E && Walk(E, k - 1, c, t);
      assert k > 1 ==> exists d :: (c, d) in E;
    }
    assert E == {(a, b)};
    WalkOne(E, a, b);
    forall levels | Depths(jobs, levels) ensures levels[a] == 0 && levels[b] >= 1 {
      var m :| Walk(E, levels[a], m, a);
    }
  }
}
