/** Removing non-action nodes from a generated flow graph and splicing their edges together. */
module DagFilter {
  import opened Paths
  import opened PipelineModel
  import opened Selections

  /** `id` is the empty text when the node has none. */
  datatype DagNode = DagNode(id: NodeId, nodeType: string, name: string, dataLabel: string)

  const EXCLUDED_TYPES: set<string> := {"input", "approval"}
  const EXCLUDED_KEYWORDS: set<string> := {"接收告警", "人工审批", "审批修复", "告警接收", "告警触发", "人工确认"}

  predicate Contains(s: string, keyword: string) {
    exists i :: 0 <= i <= |s| && keyword <= s[i..]
  }

  predicate IsExcluded(n: DagNode) {
    n.nodeType in EXCLUDED_TYPES ||
    exists k :: k in EXCLUDED_KEYWORDS && (Contains(n.name, k) || Contains(n.dataLabel, k))
  }

  /** Excluded nodes without an id stay where they are. */
  predicate IsRemoved(n: DagNode) {
    IsExcluded(n) && n.id.text != ""
  }

  /** A node goes exactly when it has an id and either its type is excluded or one of the six keywords
      stands somewhere in its name or label. */
  lemma RemovedExactly(n: DagNode)
    ensures IsRemoved(n) <==>
      && n.id.text != ""
      && (n.nodeType == "input" || n.nodeType == "approval" || exists a, k, b ::
            k in {"接收告警", "人工审批", "审批修复", "告警接收", "告警触发", "人工确认"} &&
            (n.name == a + k + b || n.dataLabel == a + k + b))
  {
    forall k ensures Contains(n.name, k) <==> exists a, b :: n.name == a + k + b { ContainsMeans(n.name, k); }
    forall k ensures Contains(n.dataLabel, k) <==> exists a, b :: n.dataLabel == a + k + b {
      ContainsMeans(n.dataLabel, k);
    }
  }

  lemma ContainsMeans(s: string, k: string)
    ensures Contains(s, k) <==> exists a, b :: s == a + k + b
  {
    if i :| 0 <= i <= |s| && k <= s[i..] {
      assert s == s[..i] + k + s[i + |k|..];
    }
    if a, b :| s == a + k + b {
      assert s[|a|..] == k + b && k <= s[|a|..];
    }
  }

  predicate Touches(e: Edge, u: NodeId) {
    e.source == u || e.target == u
  }

  /** The edges away from `u`, in order. */
  function Away(edges: seq<Edge>, u: NodeId): (r: seq<Edge>)
    ensures forall e :: e in r <==> e in edges && !Touches(e, u)
  {
    if edges == [] then []
    else
      var front, last := edges[..|edges| - 1], edges[|edges| - 1];
      assert edges == front + [last];
      Away(front, u) + (if Touches(last, u) then [] else [last])
  }

  /** The edges away from `u` keep their order and their repetitions. */
  lemma {:induction false} AwaySelects(edges: seq<Edge>, u: NodeId) returns (ks: seq<nat>)
    ensures Selects(ks, edges, Away(edges, u), (e: Edge) => e.source != u && e.target != u)
    decreases |edges|
  {
    if edges == [] {
      ks := [];
    } else {
      var front, last := edges[..|edges| - 1], edges[|edges| - 1];
      ks := AwaySelects(front, u);
      SelectsAppend(ks, front, Away(front, u), (e: Edge) => e.source != u && e.target != u, last);
      assert edges == front + [last];
      if !Touches(last, u) { ks := ks + [|front|]; }
    }
  }

  /******* Splicing as a transformation of the relation *******/

  /** `u` is taken out and its sources are joined to its targets, without new self-loops. */
  ghost predicate Spliced(E: set<(NodeId, NodeId)>, u: NodeId, F: set<(NodeId, NodeId)>) {
    forall a, b :: (a, b) in F <==>
      a != u && b != u && ((a, b) in E || ((a, u) in E && (u, b) in E && a != b))
  }

  /** After splicing, every walk follows an original walk that is at least as long. */
  lemma {:induction false} SplicedWalkBack(E: set<(NodeId, NodeId)>, u: NodeId, F: set<(NodeId, NodeId)>,
                                           k: nat, a: NodeId, b: NodeId) returns (j: nat)
    requires Spliced(E, u, F) && Walk(F, k, a, b)
    ensures k <= j && Walk(E, j, a, b)
  {
    if k == 0 {
      j := 0;
    } else {
      var c :| (a, c) in F && Walk(F, k - 1, c, b);
      j := SplicedWalkBack(E, u, F, k - 1, c, b);
      if (a, c) in E {
        WalkOne(E, a, c);
        WalkConcat(E, 1, j, a, c, b);
        j := j + 1;
      } else {
        WalkOne(E, a, u);
        WalkOne(E, u, c);
        WalkConcat(E, 1, 1, a, u, c);
        WalkConcat(E, 2, j, a, c, b);
        j := j + 2;
      }
    }
  }

  /** Every original walk between kept nodes leaves them connected. */
  lemma {:induction false} SplicedWalkForth(E: set<(NodeId, NodeId)>, u: NodeId, F: set<(NodeId, NodeId)>,
                                            k: nat, a: NodeId, b: NodeId)
    requires Spliced(E, u, F) && Walk(E, k, a, b) && a != u && b != u
    ensures Reach(F, a, b)
    decreases k
  {
    if k == 0 {
      ReachRefl(F, a);
      return;
    }
    var c :| (a, c) in E && Walk(E, k - 1, c, b);
    if c != u {
      SplicedWalkForth(E, u, F, k - 1, c, b);
      ReachEdge(F, a, c);
      ReachTrans(F, a, c, b);
      return;
    }
    var d :| (u, d) in E && Walk(E, k - 2, d, b);
    if d == u {
      assert Walk(E, k - 1, a, b);
      SplicedWalkForth(E, u, F, k - 1, a, b);
    } else {
      SplicedWalkForth(E, u, F, k - 2, d, b);
      if a != d {
        ReachEdge(F, a, d);
        ReachTrans(F, a, d, b);
      }
    }
  }

  ghost function SpliceRel(E: set<(NodeId, NodeId)>, u: NodeId): (F: set<(NodeId, NodeId)>)
    ensures Spliced(E, u, F)
  {
    var kept := set e | e in E && e.0 != u && e.1 != u;
    var joined := set e, f |
      e in E && f in E && e.1 == u && f.0 == u && e.0 != u && f.1 != u && e.0 != f.1 :: (e.0, f.1);
    assert forall a, b :: (a, u) in E && (u, b) in E && a != u && b != u && a != b ==>
      ((a, u).0, (u, b).1) in joined;
    kept + joined
  }

  /** One node after the other. */
  ghost function SpliceAll(E: set<(NodeId, NodeId)>, us: seq<NodeId>): set<(NodeId, NodeId)> {
    if us == [] then E else SpliceRel(SpliceAll(E, us[..|us| - 1]), us[|us| - 1])
  }

  /** Splicing preserves meaning: kept nodes reach each other exactly when they did before, no
      surviving edge touches a removed node, and an acyclic graph stays acyclic. */
  lemma {:induction false} SplicingPreservesReach(E: set<(NodeId, NodeId)>, us: seq<NodeId>)
    ensures var F := SpliceAll(E, us);
      && (forall a, b :: a !in us && b !in us ==> (Reach(F, a, b) <==> Reach(E, a, b)))
      && (forall a, b :: (a, b) in F ==> a !in us && b !in us)
      && (Acyclic(E) ==> Acyclic(F))
    decreases |us|
  {
    if us == [] {
    } else {
      var vs, u := us[..|us| - 1], us[|us| - 1];
      var M, F := SpliceAll(E, vs), SpliceAll(E, us);
      SplicingPreservesReach(E, vs);
      assert forall x :: x in us <==> x in vs || x == u;
      forall a, b | a !in us && b !in us ensures Reach(F, a, b) <==> Reach(M, a, b) {
        if k: nat :| Walk(F, k, a, b) { var j := SplicedWalkBack(M, u, F, k, a, b); }
        if k: nat :| Walk(M, k, a, b) { SplicedWalkForth(M, u, F, k, a, b); }
      }
      forall a, b | (a, b) in F ensures a !in us && b !in us {
        if (a, b) !in M { assert (a, u) in M && (u, b) in M; }
      }
      forall a | ReachPlus(F, a, a) ensures ReachPlus(M, a, a) {
        var k: nat :| 0 < k && Walk(F, k, a, a);
        var j := SplicedWalkBack(M, u, F, k, a, a);
      }
    }
  }

  /******* The in-place algorithm *******/

  /** `extra` holds edges that were not there, each once. */
  ghost predicate NewOnly(edges: seq<Edge>, extra: seq<Edge>) {
    (forall i, j :: 0 <= i < j < |extra| ==> extra[i] != extra[j]) && forall e :: e in extra ==> e !in edges
  }

  lemma NewOnlyAppend(edges: seq<Edge>, extra: seq<Edge>, more: seq<Edge>)
    requires NewOnly(edges, extra) && NewOnly(edges + extra, more)
    ensures NewOnly(edges, extra + more)
  {
    forall i, j | 0 <= i < j < |extra + more| ensures (extra + more)[i] != (extra + more)[j] {
      if i < |extra| <= j { assert extra[i] in edges + extra && more[j - |extra|] in more; }
    }
  }

  lemma {:induction false} AwayConcat(edges: seq<Edge>, extra: seq<Edge>, u: NodeId)
    ensures Away(edges + extra, u) == Away(edges, u) + Away(extra, u)
    decreases |extra|
  {
    if extra == [] {
      assert edges + extra == edges;
    } else {
      assert (edges + extra)[..|edges + extra| - 1] == edges + extra[..|extra| - 1];
      AwayConcat(edges, extra[..|extra| - 1], u);
    }
  }

  /** The edges away from `u` among old and new ones: those among the old, then new ones, each once. */
  lemma AwayNew(edges: seq<Edge>, extra: seq<Edge>, u: NodeId)
    requires NewOnly(edges, extra)
    ensures Away(edges + extra, u) == Away(edges, u) + Away(extra, u) && NewOnly(edges, Away(extra, u))
    ensures forall sources, targets :: InJoinOrder(sources, targets, extra) ==>
      InJoinOrder(sources, targets, Away(extra, u))
  {
    AwayConcat(edges, extra, u);
    var ks := AwaySelects(extra, u);
    forall i, j | 0 <= i < j < |ks| ensures Away(extra, u)[i] != Away(extra, u)[j] {
      assert extra[ks[i]] != extra[ks[j]];
    }
  }

  /** `a` occurs in a part of the list before any `b`. */
  ghost predicate Ahead<T(!new)>(s: seq<T>, a: T, b: T) {
    exists i :: 0 <= i <= |s| && a in s[..i] && b !in s[..i]
  }

  /** By their sources first, and from the same source by their targets. */
  ghost predicate InJoinOrder(sources: seq<NodeId>, targets: seq<NodeId>, extra: seq<Edge>) {
    forall i, j :: 0 <= i < j < |extra| ==>
      if extra[i].source == extra[j].source then Ahead(targets, extra[i].target, extra[j].target)
      else Ahead(sources, extra[i].source, extra[j].source)
  }

  /** The same by the edges at `u`: what counts is which edge into `u`, and then which out of it, is listed first. */
  ghost predicate NewInOrder(edges: seq<Edge>, u: NodeId, extra: seq<Edge>) {
    forall i, j :: 0 <= i < j < |extra| ==>
      if extra[i].source == extra[j].source then Ahead(edges, Edge(u, extra[i].target), Edge(u, extra[j].target))
      else Ahead(edges, Edge(extra[i].source, u), Edge(extra[j].source, u))
  }

  lemma AheadFront<T(!new)>(s: seq<T>, a: T, b: T)
    requires s != [] && (s[0] == a != b || (s[0] != b && Ahead(s[1..], a, b)))
    ensures Ahead(s, a, b)
  {
    if s[0] == a != b {
      assert s[..1] == [s[0]];
    } else {
      var i :| 0 <= i <= |s[1..]| && a in s[1..][..i] && b !in s[1..][..i];
      assert s[..i + 1] == [s[0]] + s[1..][..i];
    }
  }

  lemma {:induction false} AheadAtSources(edges: seq<Edge>, u: NodeId, a: NodeId, b: NodeId)
    requires Ahead(Sources(edges, u), a, b)
    ensures Ahead(edges, Edge(a, u), Edge(b, u))
  {
    var sources, rest := Sources(edges, u), if edges == [] then [] else Sources(edges[1..], u);
    if edges == [] {
    } else if edges[0].target == u {
      assert sources == [edges[0].source] + rest;
      AheadBehind(edges[0].source, rest, a, b);
      if edges[0].source != a { AheadAtSources(edges[1..], u, a, b); }
      AheadFront(edges, Edge(a, u), Edge(b, u));
    } else {
      assert sources == rest;
      AheadAtSources(edges[1..], u, a, b);
      AheadFront(edges, Edge(a, u), Edge(b, u));
    }
  }

  lemma {:induction false} AheadAtTargets(edges: seq<Edge>, u: NodeId, a: NodeId, b: NodeId)
    requires Ahead(Targets(edges, u), a, b)
    ensures Ahead(edges, Edge(u, a), Edge(u, b))
  {
    var targets, rest := Targets(edges, u), if edges == [] then [] else Targets(edges[1..], u);
    if edges == [] {
    } else if edges[0].source == u {
      assert targets == [edges[0].target] + rest;
      AheadBehind(edges[0].target, rest, a, b);
      if edges[0].target != a { AheadAtTargets(edges[1..], u, a, b); }
      AheadFront(edges, Edge(u, a), Edge(u, b));
    } else {
      assert targets == rest;
      AheadAtTargets(edges[1..], u, a, b);
      AheadFront(edges, Edge(u, a), Edge(u, b));
    }
  }

  lemma AheadBehind<T(!new)>(x: T, s: seq<T>, a: T, b: T)
    requires Ahead([x] + s, a, b)
    ensures x != b && a != b && (x != a ==> Ahead(s, a, b))
  {
    var i :| 0 <= i <= |[x] + s| && a in ([x] + s)[..i] && b !in ([x] + s)[..i];
    assert ([x] + s)[..i] == [x] + s[..i - 1];
  }

  /** What joining one source adds comes behind what its predecessors added. */
  lemma JoinOrderAppend(incoming: seq<NodeId>, i: nat, outgoing: seq<NodeId>, extra: seq<Edge>, more: seq<Edge>)
    requires i < |incoming| && InJoinOrder(incoming, outgoing, extra)
    requires forall e :: e in extra ==> e.source in incoming[..i]
    requires forall e :: e in more ==> e.source == incoming[i] && e.source !in incoming[..i]
    requires forall j, k :: 0 <= j < k < |more| ==> Ahead(outgoing, more[j].target, more[k].target)
    ensures InJoinOrder(incoming, outgoing, extra + more)
  {
    var all := extra + more;
    forall j, k | 0 <= j < k < |all|
      ensures if all[j].source == all[k].source then Ahead(outgoing, all[j].target, all[k].target)
        else Ahead(incoming, all[j].source, all[k].source)
    {
      if j < |extra| <= k { assert extra[j] in extra && more[k - |extra|] in more; }
      if |extra| <= j { assert more[j - |extra|] in more && more[k - |extra|] in more; }
    }
  }

  lemma JoinOrderMeans(edges: seq<Edge>, u: NodeId, extra: seq<Edge>)
    requires InJoinOrder(Sources(edges, u), Targets(edges, u), extra)
    ensures NewInOrder(edges, u, extra)
  {
    forall i, j | 0 <= i < j < |extra|
      ensures if extra[i].source == extra[j].source
        then Ahead(edges, Edge(u, extra[i].target), Edge(u, extra[j].target))
        else Ahead(edges, Edge(extra[i].source, u), Edge(extra[j].source, u))
    {
      if extra[i].source == extra[j].source {
        AheadAtTargets(edges, u, extra[i].target, extra[j].target);
      } else {
        AheadAtSources(edges, u, extra[i].source, extra[j].source);
      }
    }
  }

  /** Splicing `u` out: the edges away from `u` stay in place, and the missing joins follow, each once,
      in the order of the edges they replace. */
  ghost predicate SplicedTo(edges: seq<Edge>, u: NodeId, result: seq<Edge>) {
    && Rel(result) == SpliceRel(Rel(edges), u) && Away(edges, u) <= result
    && NewOnly(edges, result[|Away(edges, u)|..]) && NewInOrder(edges, u, result[|Away(edges, u)|..])
  }

  /** Joins each source of `u` to each of its targets unless the edge exists, then drops the
      edges at `u`. The other edges stay in place. */
  method SpliceOut(edges: seq<Edge>, u: NodeId) returns (result: seq<Edge>)
    ensures SplicedTo(edges, u, result)
  {
    var all := edges;
    var incoming := Sources(edges, u);
    var outgoing := Targets(edges, u);
    for i := 0 to |incoming|
      invariant edges <= all && NewOnly(edges, all[|edges|..])
      invariant InJoinOrder(incoming, outgoing, all[|edges|..])
      invariant forall e :: e in all <==> e in edges || Joined(incoming[..i], outgoing, e)
    {
      assert incoming[..i + 1] == incoming[..i] + [incoming[i]];
      ghost var before := all;
      all := JoinOne(all, incoming[i], outgoing);
      assert forall e :: Joined(incoming[..i + 1], outgoing, e) <==>
        Joined(incoming[..i], outgoing, e) || Joined([incoming[i]], outgoing, e);
      NewOnlyAppend(edges, before[|edges|..], all[|before|..]);
      JoinedBehind(edges, incoming, i, outgoing, before, all);
      assert edges + before[|edges|..] == before;
      assert all[|edges|..] == before[|edges|..] + all[|before|..];
    }
    assert incoming[..|incoming|] == incoming;
    result := Away(all, u);
    AwayNew(edges, all[|edges|..], u);
    assert all == edges + all[|edges|..];
    JoinOrderMeans(edges, u, Away(all[|edges|..], u));
    SplicedEdges(edges, u, result);
  }

  lemma JoinedBehind(edges: seq<Edge>, incoming: seq<NodeId>, i: nat, outgoing: seq<NodeId>,
                     before: seq<Edge>, all: seq<Edge>)
    requires i < |incoming| && edges <= before <= all
    requires NewOnly(edges, before[|edges|..]) && InJoinOrder(incoming, outgoing, before[|edges|..])
    requires forall e :: e in before <==> e in edges || Joined(incoming[..i], outgoing, e)
    requires NewOnly(before, all[|before|..])
    requires forall e :: e in all <==> e in before || Joined([incoming[i]], outgoing, e)
    requires forall j, k :: 0 <= j < k < |all[|before|..]| ==>
      Ahead(outgoing, all[|before|..][j].target, all[|before|..][k].target)
    ensures InJoinOrder(incoming, outgoing, before[|edges|..] + all[|before|..])
  {
    var extra, more := before[|edges|..], all[|before|..];
    forall e | e in extra ensures e.source in incoming[..i] { assert e in before; }
    forall e | e in more ensures e.source == incoming[i] && e.source !in incoming[..i] {
      assert e in all && e !in before;
    }
    JoinOrderAppend(incoming, i, outgoing, extra, more);
  }

  /** Appends the missing edges from `src` to each target. */
  method JoinOne(edges: seq<Edge>, src: NodeId, targets: seq<NodeId>) returns (all: seq<Edge>)
    ensures edges <= all && NewOnly(edges, all[|edges|..])
    ensures forall e :: e in all <==> e in edges || Joined([src], targets, e)
    ensures forall i, k :: 0 <= i < k < |all[|edges|..]| ==>
      Ahead(targets, all[|edges|..][i].target, all[|edges|..][k].target)
  {
    all := edges;
    for j := 0 to |targets|
      invariant edges <= all && NewOnly(edges, all[|edges|..])
      invariant forall i, k :: 0 <= i < k < |all[|edges|..]| ==>
        Ahead(targets, all[|edges|..][i].target, all[|edges|..][k].target)
      invariant forall e :: e in all <==> e in edges || Joined([src], targets[..j], e)
    {
      var tgt := targets[j];
      assert targets[..j + 1] == targets[..j] + [tgt];
      ghost var before := all;
      if src != tgt && Edge(src, tgt) !in all {
        NewOnlyAppend(edges, all[|edges|..], [Edge(src, tgt)]);
        assert edges + all[|edges|..] == all;
        assert (all + [Edge(src, tgt)])[|edges|..] == all[|edges|..] + [Edge(src, tgt)];
        NewTargetLast(edges, all, src, targets, j);
        all := all + [Edge(src, tgt)];
      }
      assert forall e :: e in all <==> e in before || (e == Edge(src, tgt) && src != tgt);
    }
    assert targets[..|targets|] == targets;
  }

  /** The next new edge leads to a target behind those of all edges added before. */
  lemma NewTargetLast(edges: seq<Edge>, all: seq<Edge>, src: NodeId, targets: seq<NodeId>, j: nat)
    requires edges <= all && NewOnly(edges, all[|edges|..]) && j < |targets|
    requires forall e :: e in all <==> e in edges || Joined([src], targets[..j], e)
    requires src != targets[j] && Edge(src, targets[j]) !in all
    ensures forall e :: e in all[|edges|..] ==> Ahead(targets, e.target, targets[j])
  {
    forall e | e in all[|edges|..] ensures Ahead(targets, e.target, targets[j]) {
      assert e in all && e !in edges;
      assert !Joined([src], targets[..j], Edge(src, targets[j]));
      assert e.target in targets[..j] && targets[j] !in targets[..j];
    }
  }

  lemma SplicedEdges(edges: seq<Edge>, u: NodeId, result: seq<Edge>)
    requires forall e :: e in result <==>
      !Touches(e, u) && (e in edges || Joined(Sources(edges, u), Targets(edges, u), e))
    ensures Rel(result) == SpliceRel(Rel(edges), u)
  {
    var F := SpliceRel(Rel(edges), u);
    forall a, b ensures (a, b) in Rel(result) <==> (a, b) in F {
      RelHas(result, a, b);
      RelHas(edges, a, b);
      RelHas(edges, a, u);
      RelHas(edges, u, b);
      assert Edge(a, b) in result <==> (a, b) in F;
    }
  }

  predicate Joined(sources: seq<NodeId>, targets: seq<NodeId>, e: Edge) {
    e.source in sources && e.target in targets && e.source != e.target
  }

  function Sources(edges: seq<Edge>, u: NodeId): (r: seq<NodeId>)
    ensures forall a :: a in r <==> Edge(a, u) in edges
  {
    if edges == [] then []
    else (if edges[0].target == u then [edges[0].source] else []) + Sources(edges[1..], u)
  }

  function Targets(edges: seq<Edge>, u: NodeId): (r: seq<NodeId>)
    ensures forall b :: b in r <==> Edge(u, b) in edges
  {
    if edges == [] then []
    else (if edges[0].source == u then [edges[0].target] else []) + Targets(edges[1..], u)
  }

  /** The nodes that stay, in order. */
  function Kept(nodes: seq<DagNode>): seq<DagNode> {
    if nodes == [] then []
    else Kept(nodes[..|nodes| - 1]) + (if IsRemoved(nodes[|nodes| - 1]) then [] else [nodes[|nodes| - 1]])
  }

  /** Every node that is not removed stays, in its order and as often as before. */
  lemma {:induction false} KeptSelects(nodes: seq<DagNode>) returns (ks: seq<nat>)
    ensures Selects(ks, nodes, Kept(nodes), (n: DagNode) => !IsRemoved(n))
    decreases |nodes|
  {
    if nodes == [] {
      ks := [];
    } else {
      var front, last := nodes[..|nodes| - 1], nodes[|nodes| - 1];
      ks := KeptSelects(front);
      SelectsAppend(ks, front, Kept(front), (n: DagNode) => !IsRemoved(n), last);
      assert nodes == front + [last];
      if !IsRemoved(last) { ks := ks + [|front|]; }
    }
  }

  function RemovedIds(nodes: seq<DagNode>): (r: seq<NodeId>)
    ensures forall u :: u in r <==> exists n :: n in nodes && IsRemoved(n) && n.id == u
  {
    if nodes == [] then []
    else
      var n, rest := nodes[|nodes| - 1], nodes[..|nodes| - 1];
      assert nodes == rest + [n];
      RemovedIds(rest) + (if IsRemoved(n) then [n.id] else [])
  }

  /** The ids of the removed nodes, in the order of the nodes. */
  lemma {:induction false} RemovedInOrder(nodes: seq<DagNode>) returns (ks: seq<nat>, removed: seq<DagNode>)
    ensures Selects(ks, nodes, removed, IsRemoved) && |RemovedIds(nodes)| == |removed|
    ensures forall i :: 0 <= i < |removed| ==> RemovedIds(nodes)[i] == removed[i].id
    decreases |nodes|
  {
    if nodes == [] {
      ks, removed := [], [];
    } else {
      var front, last := nodes[..|nodes| - 1], nodes[|nodes| - 1];
      ks, removed := RemovedInOrder(front);
      SelectsAppend(ks, front, removed, IsRemoved, last);
      assert nodes == front + [last];
      if IsRemoved(last) { ks, removed := ks + [|front|], removed + [last]; }
    }
  }

  /** Stage by stage, one id after the other is spliced out. */
  ghost predicate SplicedInTurn(stages: seq<seq<Edge>>, us: seq<NodeId>) {
    |stages| == |us| + 1 && forall k :: 0 <= k < |us| ==> SplicedTo(stages[k], us[k], stages[k + 1])
  }

  /** The filter keeps the remaining nodes in order and splices every removed id out of the edges, one after
      the other. */
  method FilterDag(nodes: seq<DagNode>, edges: seq<Edge>)
    returns (keptNodes: seq<DagNode>, keptEdges: seq<Edge>, ghost stages: seq<seq<Edge>>)
    ensures keptNodes == Kept(nodes)
    ensures Rel(keptEdges) == SpliceAll(Rel(edges), RemovedIds(nodes))
    ensures SplicedInTurn(stages, RemovedIds(nodes)) && stages[0] == edges && stages[|stages| - 1] == keptEdges
  {
    keptNodes, keptEdges, stages := [], edges, [edges];
    for i := 0 to |nodes|
      invariant keptNodes == Kept(nodes[..i])
      invariant Rel(keptEdges) == SpliceAll(Rel(edges), RemovedIds(nodes[..i]))
      invariant SplicedInTurn(stages, RemovedIds(nodes[..i]))
      invariant stages[0] == edges && stages[|stages| - 1] == keptEdges
    {
      var node := nodes[i];
      assert nodes[..i + 1][..i] == nodes[..i];
      if IsRemoved(node) {
        keptEdges := SpliceOut(keptEdges, node.id);
        stages := stages + [keptEdges];
        ghost var us := RemovedIds(nodes[..i + 1]);
        assert us[..|us| - 1] == RemovedIds(nodes[..i]);
      } else {
        keptNodes := keptNodes + [node];
        assert RemovedIds(nodes[..i + 1]) == RemovedIds(nodes[..i]);
      }
    }
    assert nodes[..|nodes|] == nodes;
  }

  /** With distinct ids, two kept nodes reach each other over the new edges exactly when they did over
      the old ones. */
  lemma KeptReach(nodes: seq<DagNode>, edges: seq<Edge>, keptEdges: seq<Edge>, m: DagNode, n: DagNode)
    requires forall i, j :: 0 <= i < j < |nodes| ==> nodes[i].id != nodes[j].id
    requires Rel(keptEdges) == SpliceAll(Rel(edges), RemovedIds(nodes))
    requires m in Kept(nodes) && n in Kept(nodes)
    ensures Reach(Rel(keptEdges), m.id, n.id) <==> Reach(Rel(edges), m.id, n.id)
  {
    KeptIdStays(nodes, m);
    KeptIdStays(nodes, n);
    SplicingPreservesReach(Rel(edges), RemovedIds(nodes));
  }

  lemma RemovedApart(edges: seq<Edge>, us: seq<NodeId>, keptEdges: seq<Edge>)
    requires Rel(keptEdges) == SpliceAll(Rel(edges), us)
    ensures forall e, u :: e in keptEdges && u in us ==> !Touches(e, u)
    ensures Acyclic(Rel(edges)) ==> Acyclic(Rel(keptEdges))
  {
    SplicingPreservesReach(Rel(edges), us);
    forall e, u | e in keptEdges && u in us ensures !Touches(e, u) {
      RelHas(keptEdges, e.source, e.target);
    }
  }

  /** The filter preserves meaning: with distinct ids, kept nodes reach each other over the new edges
      exactly when they did over the old ones, no new edge touches a removed id, and an acyclic graph
      stays acyclic. */
  lemma {:induction false} FilterPreservesMeaning(nodes: seq<DagNode>, edges: seq<Edge>, keptEdges: seq<Edge>)
    requires forall i, j :: 0 <= i < j < |nodes| ==> nodes[i].id != nodes[j].id
    requires Rel(keptEdges) == SpliceAll(Rel(edges), RemovedIds(nodes))
    ensures forall m, n :: m in Kept(nodes) && n in Kept(nodes) ==>
      (Reach(Rel(keptEdges), m.id, n.id) <==> Reach(Rel(edges), m.id, n.id))
    ensures forall e, u :: e in keptEdges && u in RemovedIds(nodes) ==> !Touches(e, u)
    ensures Acyclic(Rel(edges)) ==> Acyclic(Rel(keptEdges))
  {
    RemovedApart(edges, RemovedIds(nodes), keptEdges);
    forall m, n | m in Kept(nodes) && n in Kept(nodes)
      ensures Reach(Rel(keptEdges), m.id, n.id) <==> Reach(Rel(edges), m.id, n.id)
    {
      KeptReach(nodes, edges, keptEdges, m, n);
    }
  }

  lemma KeptIdStays(nodes: seq<DagNode>, n: DagNode)
    requires forall i, j :: 0 <= i < j < |nodes| ==> nodes[i].id != nodes[j].id
    requires n in Kept(nodes)
    ensures n.id !in RemovedIds(nodes)
  {
    KeptAre(nodes);
    forall r | r in nodes && IsRemoved(r) ensures r.id != n.id {
      var i :| 0 <= i < |nodes| && nodes[i] == r;
      var j :| 0 <= j < |nodes| && nodes[j] == n;
    }
  }

  lemma {:induction false} KeptAre(nodes: seq<DagNode>)
    ensures forall n :: n in Kept(nodes) <==> n in nodes && !IsRemoved(n)
  {
    if nodes == [] {
    } else {
      KeptAre(nodes[..|nodes| - 1]);
      assert nodes == nodes[..|nodes| - 1] + [nodes[|nodes| - 1]];
    }
  }
}
