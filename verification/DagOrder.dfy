/** The order in which a breadth-first search visits the nodes: node by node from the queue, layer by layer,
    and, by positions, by first parent and first edge. */
module DagOrder {
  import opened PipelineModel

  function Members(s: seq<NodeId>): set<NodeId> {
    set n | n in s
  }

  ghost predicate NoRepeat(s: seq<NodeId>) {
    forall i, j :: 0 <= i < j < |s| ==> s[i] != s[j]
  }

  function Successors(ids: set<NodeId>, edges: seq<Edge>, u: NodeId): seq<NodeId> {
    if edges == [] then []
    else
      (if edges[0].source == u && u in ids && edges[0].target in ids then [edges[0].target] else [])
      + Successors(ids, edges[1..], u)
  }

  lemma {:induction false} SuccessorsHave(ids: set<NodeId>, edges: seq<Edge>, u: NodeId)
    ensures forall v :: v in Successors(ids, edges, u) <==> Edge(u, v) in edges && u in ids && v in ids
  {
    if edges == [] {
    } else {
      SuccessorsHave(ids, edges[1..], u);
      assert edges == [edges[0]] + edges[1..];
    }
  }

  /** The nodes outside `seen`, each at its first occurrence. */
  function Unseen(nodes: seq<NodeId>, seen: set<NodeId>): seq<NodeId> {
    if nodes == [] then []
    else if nodes[0] in seen then Unseen(nodes[1..], seen)
    else [nodes[0]] + Unseen(nodes[1..], seen + {nodes[0]})
  }

  lemma {:induction false} UnseenHas(nodes: seq<NodeId>, seen: set<NodeId>)
    ensures forall n :: n in Unseen(nodes, seen) <==> n in nodes && n !in seen
    ensures NoRepeat(Unseen(nodes, seen))
  {
    if nodes == [] {
    } else if nodes[0] in seen {
      UnseenHas(nodes[1..], seen);
    } else {
      UnseenHas(nodes[1..], seen + {nodes[0]});
    }
  }

  /** A layer that is not empty brings a new node of the graph. */
  lemma LayerIsNew(ids: set<NodeId>, candidates: seq<NodeId>, seen: set<NodeId>)
    requires (forall n :: n in candidates ==> n in ids) && Unseen(candidates, seen) != []
    ensures ids - (seen + Members(Unseen(candidates, seen))) < ids - seen
  {
    var layer := Unseen(candidates, seen);
    UnseenHas(candidates, seen);
    assert layer[0] in layer && layer[0] in ids - seen;
  }

  function AllSuccessors(ids: set<NodeId>, edges: seq<Edge>, layer: seq<NodeId>): seq<NodeId> {
    if layer == [] then [] else Successors(ids, edges, layer[0]) + AllSuccessors(ids, edges, layer[1..])
  }

  lemma {:induction false} AllSuccessorsIn(ids: set<NodeId>, edges: seq<Edge>, layer: seq<NodeId>)
    ensures forall v :: v in AllSuccessors(ids, edges, layer) ==> v in ids
  {
    if layer == [] {
    } else {
      SuccessorsHave(ids, edges, layer[0]);
      AllSuccessorsIn(ids, edges, layer[1..]);
    }
  }

  /** Layer by layer: the unseen candidates, then the unseen ones among all their successors, and so on. */
  function Layers(ids: set<NodeId>, edges: seq<Edge>, candidates: seq<NodeId>, seen: set<NodeId>): seq<NodeId>
    requires forall n :: n in candidates ==> n in ids
    decreases ids - seen
  {
    var layer := Unseen(candidates, seen);
    if layer == [] then []
    else
      LayerIsNew(ids, candidates, seen);
      AllSuccessorsIn(ids, edges, layer);
      layer + Layers(ids, edges, AllSuccessors(ids, edges, layer), seen + Members(layer))
  }

  /** Node by node, as the queue hands them out. */
  function Visits(ids: set<NodeId>, edges: seq<Edge>, queue: seq<NodeId>, seen: set<NodeId>): seq<NodeId>
    decreases ids - seen, |queue|
  {
    if queue == [] then []
    else if queue[0] in seen || queue[0] !in ids then Visits(ids, edges, queue[1..], seen)
    else [queue[0]] + Visits(ids, edges, queue[1..] + Successors(ids, edges, queue[0]), seen + {queue[0]})
  }

  /** Working off the front part of the queue visits its unseen nodes and appends their successors. */
  lemma {:induction false} VisitsFront(ids: set<NodeId>, edges: seq<Edge>,
                                       front: seq<NodeId>, back: seq<NodeId>, seen: set<NodeId>)
    requires forall n :: n in front ==> n in ids
    ensures var layer := Unseen(front, seen);
      Visits(ids, edges, front + back, seen) ==
      layer + Visits(ids, edges, back + AllSuccessors(ids, edges, layer), seen + Members(layer))
    decreases |front|
  {
    if front == [] {
      NothingInFront(ids, edges, back, seen);
      assert front + back == back;
    } else if front[0] in seen {
      assert (front + back)[1..] == front[1..] + back;
      VisitsFront(ids, edges, front[1..], back, seen);
    } else {
      VisitsFront(ids, edges, front[1..], back + Successors(ids, edges, front[0]), seen + {front[0]});
      FrontGrows(ids, edges, front, back, seen);
    }
  }

  lemma NothingInFront(ids: set<NodeId>, edges: seq<Edge>, back: seq<NodeId>, seen: set<NodeId>)
    ensures Visits(ids, edges, back, seen) == [] + Visits(ids, edges, back + [], seen + Members([]))
  {
    assert back + [] == back && seen + Members([]) == seen;
  }

  /** From the visits of the shorter front part to those of the whole. */
  lemma FrontGrows(ids: set<NodeId>, edges: seq<Edge>, front: seq<NodeId>, back: seq<NodeId>, seen: set<NodeId>)
    requires front != [] && front[0] in ids - seen
    requires var u, succ := front[0], Successors(ids, edges, front[0]);
      var more := Unseen(front[1..], seen + {u});
      Visits(ids, edges, front[1..] + (back + succ), seen + {u}) ==
      more + Visits(ids, edges, back + succ + AllSuccessors(ids, edges, more), seen + {u} + Members(more))
    ensures var layer := Unseen(front, seen);
      Visits(ids, edges, front + back, seen) ==
      layer + Visits(ids, edges, back + AllSuccessors(ids, edges, layer), seen + Members(layer))
  {
    var u, succ := front[0], Successors(ids, edges, front[0]);
    var more := Unseen(front[1..], seen + {u});
    VisitsOne(ids, edges, front, back, seen);
    LayerGrows(ids, edges, u, more, back, seen);
    assert Unseen(front, seen) == [u] + more;
    PutFirst(Visits(ids, edges, front + back, seen), u,
             Visits(ids, edges, front[1..] + (back + succ), seen + {u}), more,
             Visits(ids, edges, back + AllSuccessors(ids, edges, [u] + more), seen + Members([u] + more)));
  }

  lemma VisitsOne(ids: set<NodeId>, edges: seq<Edge>, front: seq<NodeId>, back: seq<NodeId>, seen: set<NodeId>)
    requires front != [] && front[0] in ids - seen
    ensures var u, succ := front[0], Successors(ids, edges, front[0]);
      Visits(ids, edges, front + back, seen) == [u] + Visits(ids, edges, front[1..] + (back + succ), seen + {u})
  {
    var succ := Successors(ids, edges, front[0]);
    assert (front + back)[1..] + succ == front[1..] + (back + succ);
  }

  lemma PutFirst(whole: seq<NodeId>, u: NodeId, tail: seq<NodeId>, more: seq<NodeId>, later: seq<NodeId>)
    requires whole == [u] + tail && tail == more + later
    ensures whole == ([u] + more) + later
  {
  }

  lemma LayerGrows(ids: set<NodeId>, edges: seq<Edge>, u: NodeId, more: seq<NodeId>,
                   back: seq<NodeId>, seen: set<NodeId>)
    ensures back + Successors(ids, edges, u) + AllSuccessors(ids, edges, more) ==
      back + AllSuccessors(ids, edges, [u] + more)
    ensures seen + {u} + Members(more) == seen + Members([u] + more)
  {
    assert ([u] + more)[1..] == more;
  }

  /** The queue visits the nodes layer by layer. */
  lemma {:induction false} VisitsAreLayers(ids: set<NodeId>, edges: seq<Edge>, queue: seq<NodeId>, seen: set<NodeId>)
    requires forall n :: n in queue ==> n in ids
    ensures Visits(ids, edges, queue, seen) == Layers(ids, edges, queue, seen)
    decreases ids - seen
  {
    var layer := Unseen(queue, seen);
    VisitsFront(ids, edges, queue, [], seen);
    assert queue + [] == queue && [] + AllSuccessors(ids, edges, layer) == AllSuccessors(ids, edges, layer);
    if layer == [] {
    } else {
      LayerIsNew(ids, queue, seen);
      AllSuccessorsIn(ids, edges, layer);
      VisitsAreLayers(ids, edges, AllSuccessors(ids, edges, layer), seen + Members(layer));
    }
  }

  /** Appending one node to the input appends it to the unseen ones unless it occurred before. */
  lemma {:induction false} UnseenAppend(nodes: seq<NodeId>, n: NodeId, seen: set<NodeId>)
    ensures Unseen(nodes + [n], seen) == Unseen(nodes, seen) + if n in seen || n in nodes then [] else [n]
    decreases |nodes|
  {
    if nodes == [] {
    } else {
      assert (nodes + [n])[1..] == nodes[1..] + [n];
      UnseenAppend(nodes[1..], n, if nodes[0] in seen then seen else seen + {nodes[0]});
    }
  }

  /******* What the order means, by positions *******/

  /** `xs` are nodes of `nodeIds` in the order in which those list them first. */
  ghost predicate InFileOrder(nodeIds: seq<NodeId>, xs: seq<NodeId>) {
    forall p, q :: 0 <= p < q < |xs| ==> FirstBefore(nodeIds, xs[p], xs[q])
  }

  ghost predicate FirstBefore(nodeIds: seq<NodeId>, v: NodeId, w: NodeId) {
    exists a :: 0 <= a < |nodeIds| && nodeIds[a] == v && w !in nodeIds[..a]
  }

  lemma FirstBeforeShift(nodes: seq<NodeId>, v: NodeId, w: NodeId)
    requires nodes != [] && FirstBefore(nodes[1..], v, w) && nodes[0] != w
    ensures FirstBefore(nodes, v, w)
  {
    var a :| 0 <= a < |nodes[1..]| && nodes[1..][a] == v && w !in nodes[1..][..a];
    assert nodes[..a + 1] == [nodes[0]] + nodes[1..][..a];
    assert nodes[a + 1] == v;
  }

  lemma {:induction false} UnseenInOrder(nodes: seq<NodeId>, seen: set<NodeId>)
    ensures InFileOrder(nodes, Unseen(nodes, seen))
  {
    var xs := Unseen(nodes, seen);
    if nodes == [] {
    } else {
      var more := if nodes[0] in seen then seen else seen + {nodes[0]};
      var rest := Unseen(nodes[1..], more);
      UnseenInOrder(nodes[1..], more);
      UnseenHas(nodes[1..], more);
      forall p, q | 0 <= p < q < |xs| ensures FirstBefore(nodes, xs[p], xs[q]) {
        if nodes[0] in seen {
          assert xs[q] in rest;
          FirstBeforeShift(nodes, xs[p], xs[q]);
        } else if p == 0 {
          assert nodes[0] == xs[0] && nodes[..0] == [];
        } else {
          assert xs[p] == rest[p - 1] && xs[q] == rest[q - 1] && rest[q - 1] in rest;
          FirstBeforeShift(nodes, xs[p], xs[q]);
        }
      }
    }
  }

  /** Dropping repetitions first changes nothing. */
  lemma {:induction false} UnseenTwice(nodes: seq<NodeId>, A: set<NodeId>, B: set<NodeId>)
    ensures Unseen(Unseen(nodes, A), B) == Unseen(nodes, A + B)
  {
    if nodes == [] {
    } else if nodes[0] in A {
      UnseenTwice(nodes[1..], A, B);
    } else {
      var n, rest := nodes[0], Unseen(nodes[1..], A + {nodes[0]});
      assert Unseen(nodes, A) == [n] + rest && ([n] + rest)[1..] == rest;
      if n in B {
        UnseenTwice(nodes[1..], A + {n}, B);
        assert A + {n} + B == A + B;
      } else {
        UnseenTwice(nodes[1..], A + {n}, B + {n});
        assert A + {n} + (B + {n}) == A + B + {n};
      }
    }
  }

  lemma {:induction false} UnseenPrefix(s: seq<NodeId>, t: seq<NodeId>, seen: set<NodeId>)
    requires NoRepeat(s) && forall n :: n in s ==> n !in seen
    ensures s <= Unseen(s + t, seen)
  {
    if s == [] {
    } else {
      assert (s + t)[1..] == s[1..] + t;
      forall n | n in s[1..] ensures n !in seen + {s[0]} {
        var k :| 0 <= k < |s[1..]| && s[1..][k] == n;
      }
      UnseenPrefix(s[1..], t, seen + {s[0]});
    }
  }

  lemma TakeBehind(s: seq<NodeId>, x: nat)
    requires 0 < x < |s|
    ensures s[..x] == [s[0]] + s[1..][..x - 1] && s[1..][x - 1] == s[x]
  {
  }

  /** A node that occurs before any occurrence of another one is taken before it. */
  lemma {:induction false} UnseenBefore(s: seq<NodeId>, seen: set<NodeId>, x: nat, p: nat, q: nat)
    requires x < |s| && s[x] !in seen && p < |Unseen(s, seen)| && q < |Unseen(s, seen)| && p != q
    requires Unseen(s, seen)[p] == s[x] && Unseen(s, seen)[q] !in s[..x]
    ensures p < q
    decreases |s|
  {
    var xs := Unseen(s, seen);
    UnseenHas(s, seen);
    if x > 0 {
      TakeBehind(s, x);
      if s[0] in seen {
        UnseenBefore(s[1..], seen, x - 1, p, q);
      } else if s[0] == s[x] {
        assert xs[0] == s[0];
      } else {
        assert xs[0] == s[0] && xs[q] != s[0] && xs[p] != s[0];
        UnseenBefore(s[1..], seen + {s[0]}, x - 1, p - 1, q - 1);
      }
    } else {
      assert xs[0] == s[0];
    }
  }

  /** The nodes visited are the first occurrences in the roots followed by everything queued on the way. */
  lemma {:induction false} VisitsFixpoint(ids: set<NodeId>, edges: seq<Edge>, queue: seq<NodeId>, seen: set<NodeId>)
    requires forall n :: n in queue ==> n in ids
    ensures var visited := Visits(ids, edges, queue, seen);
      visited == Unseen(queue + AllSuccessors(ids, edges, visited), seen)
    decreases ids - seen, |queue|
  {
    var visited := Visits(ids, edges, queue, seen);
    if queue == [] {
    } else if queue[0] in seen {
      VisitsFixpoint(ids, edges, queue[1..], seen);
      assert (queue + AllSuccessors(ids, edges, visited))[1..] == queue[1..] + AllSuccessors(ids, edges, visited);
    } else {
      SuccessorsHave(ids, edges, queue[0]);
      VisitsFixpoint(ids, edges, queue[1..] + Successors(ids, edges, queue[0]), seen + {queue[0]});
      FixpointGrows(ids, edges, queue, seen);
    }
  }

  lemma FixpointGrows(ids: set<NodeId>, edges: seq<Edge>, queue: seq<NodeId>, seen: set<NodeId>)
    requires queue != [] && queue[0] in ids - seen
    requires var u, succ := queue[0], Successors(ids, edges, queue[0]);
      var rest := Visits(ids, edges, queue[1..] + succ, seen + {u});
      rest == Unseen(queue[1..] + succ + AllSuccessors(ids, edges, rest), seen + {u})
    ensures var visited := Visits(ids, edges, queue, seen);
      visited == Unseen(queue + AllSuccessors(ids, edges, visited), seen)
  {
    var u, succ := queue[0], Successors(ids, edges, queue[0]);
    var rest := Visits(ids, edges, queue[1..] + succ, seen + {u});
    assert Visits(ids, edges, queue, seen) == [u] + rest;
    AllSuccessorsFront(ids, edges, u, rest);
    UnseenFront(queue, succ + AllSuccessors(ids, edges, rest), seen);
    Regroup(queue[1..], succ, AllSuccessors(ids, edges, rest));
  }

  lemma AllSuccessorsFront(ids: set<NodeId>, edges: seq<Edge>, u: NodeId, rest: seq<NodeId>)
    ensures AllSuccessors(ids, edges, [u] + rest) == Successors(ids, edges, u) + AllSuccessors(ids, edges, rest)
  {
    assert ([u] + rest)[1..] == rest;
  }

  lemma UnseenFront(queue: seq<NodeId>, more: seq<NodeId>, seen: set<NodeId>)
    requires queue != [] && queue[0] !in seen
    ensures Unseen(queue + more, seen) == [queue[0]] + Unseen(queue[1..] + more, seen + {queue[0]})
  {
    assert (queue + more)[1..] == queue[1..] + more;
  }

  lemma Regroup(a: seq<NodeId>, b: seq<NodeId>, c: seq<NodeId>)
    ensures a + (b + c) == (a + b) + c
  {
  }

  lemma {:induction false} AllSuccessorsJoin(ids: set<NodeId>, edges: seq<Edge>, xs: seq<NodeId>, ys: seq<NodeId>)
    ensures AllSuccessors(ids, edges, xs + ys) == AllSuccessors(ids, edges, xs) + AllSuccessors(ids, edges, ys)
  {
    if xs == [] {
      assert xs + ys == ys;
    } else {
      assert (xs + ys)[1..] == xs[1..] + ys;
      AllSuccessorsJoin(ids, edges, xs[1..], ys);
      Regroup(Successors(ids, edges, xs[0]), AllSuccessors(ids, edges, xs[1..]), AllSuccessors(ids, edges, ys));
    }
  }

  lemma AllSuccessorsAt(ids: set<NodeId>, edges: seq<Edge>, layer: seq<NodeId>, i: nat)
    requires i < |layer|
    ensures AllSuccessors(ids, edges, layer) == AllSuccessors(ids, edges, layer[..i]) +
      (Successors(ids, edges, layer[i]) + AllSuccessors(ids, edges, layer[i + 1..]))
  {
    assert layer == layer[..i] + ([layer[i]] + layer[i + 1..]);
    AllSuccessorsJoin(ids, edges, layer[..i], [layer[i]] + layer[i + 1..]);
    AllSuccessorsFront(ids, edges, layer[i], layer[i + 1..]);
  }

  lemma {:induction false} SuccessorsJoin(ids: set<NodeId>, xs: seq<Edge>, ys: seq<Edge>, u: NodeId)
    ensures Successors(ids, xs + ys, u) == Successors(ids, xs, u) + Successors(ids, ys, u)
  {
    if xs == [] {
      assert xs + ys == ys;
    } else {
      assert (xs + ys)[1..] == xs[1..] + ys;
      SuccessorsJoin(ids, xs[1..], ys, u);
    }
  }

  lemma SuccessorsAt(ids: set<NodeId>, edges: seq<Edge>, u: NodeId, a: nat)
    requires a < |edges| && edges[a].source == u && u in ids && edges[a].target in ids
    ensures Successors(ids, edges, u) == Successors(ids, edges[..a], u) +
      ([edges[a].target] + Successors(ids, edges[a + 1..], u))
  {
    assert edges == edges[..a] + edges[a..] && edges[a..][1..] == edges[a + 1..];
    SuccessorsJoin(ids, edges[..a], edges[a..], u);
  }

  lemma {:induction false} AllSuccessorsHave(ids: set<NodeId>, edges: seq<Edge>, layer: seq<NodeId>, v: NodeId)
    ensures v in AllSuccessors(ids, edges, layer) <==>
      exists k :: 0 <= k < |layer| && Edge(layer[k], v) in edges && layer[k] in ids && v in ids
  {
    if layer == [] {
    } else {
      SuccessorsHave(ids, edges, layer[0]);
      AllSuccessorsHave(ids, edges, layer[1..], v);
      if k :| 0 <= k < |layer| && Edge(layer[k], v) in edges && layer[k] in ids && v in ids {
        if k > 0 { assert layer[1..][k - 1] == layer[k]; }
      }
      if k :| 0 <= k < |layer[1..]| && Edge(layer[1..][k], v) in edges && layer[1..][k] in ids && v in ids {
        assert layer[k + 1] == layer[1..][k];
      }
    }
  }

  /** Position `i` is that of the earliest node in `order` with an edge to `v`, and `a` that of its first such edge. */
  ghost predicate FirstParent(edges: seq<Edge>, order: seq<NodeId>, v: NodeId, i: nat, a: nat) {
    && i < |order| && a < |edges| && edges[a] == Edge(order[i], v)
    && (forall k :: 0 <= k < i ==> Edge(order[k], v) !in edges)
    && (forall k :: 0 <= k < a ==> edges[k] != edges[a])
  }

  lemma FirstParentIs(edges: seq<Edge>, order: seq<NodeId>, v: NodeId, k: nat) returns (i: nat, a: nat)
    requires k < |order| && Edge(order[k], v) in edges
    ensures FirstParent(edges, order, v, i, a)
  {
    i := 0;
    while Edge(order[i], v) !in edges
      invariant i <= k && forall m :: 0 <= m < i ==> Edge(order[m], v) !in edges
      decreases k - i
    {
      i := i + 1;
    }
    a := 0;
    while edges[a] != Edge(order[i], v)
      invariant a < |edges| && Edge(order[i], v) in edges[a..]
      invariant forall m :: 0 <= m < a ==> edges[m] != Edge(order[i], v)
      decreases |edges| - a
    {
      a := a + 1;
    }
  }

  /** `visited` is reproduced by what it queues. */
  ghost predicate QueuesItself(ids: set<NodeId>, edges: seq<Edge>, roots: seq<NodeId>, visited: seq<NodeId>) {
    visited == Unseen(roots + AllSuccessors(ids, edges, visited), {}) && forall n :: n in roots ==> n in ids
  }

  lemma VisitedIn(ids: set<NodeId>, edges: seq<Edge>, roots: seq<NodeId>, visited: seq<NodeId>)
    requires QueuesItself(ids, edges, roots, visited)
    ensures forall k :: 0 <= k < |visited| ==> visited[k] in ids
  {
    UnseenHas(roots + AllSuccessors(ids, edges, visited), {});
    AllSuccessorsIn(ids, edges, visited);
    forall k | 0 <= k < |visited| ensures visited[k] in ids { assert visited[k] in visited; }
  }

  /** What is queued before the edge `a` of the node at position `i`. */
  function Head(ids: set<NodeId>, edges: seq<Edge>, roots: seq<NodeId>, visited: seq<NodeId>, i: nat, a: nat)
    : seq<NodeId>
    requires i < |visited| && a < |edges|
  {
    roots + AllSuccessors(ids, edges, visited[..i]) + Successors(ids, edges[..a], visited[i])
  }

  lemma HeadAt(ids: set<NodeId>, edges: seq<Edge>, roots: seq<NodeId>, visited: seq<NodeId>, i: nat, a: nat)
    requires i < |visited| && a < |edges|
    requires edges[a].source == visited[i] && visited[i] in ids && edges[a].target in ids
    ensures var stream, head := roots + AllSuccessors(ids, edges, visited), Head(ids, edges, roots, visited, i, a);
      |head| < |stream| && stream[..|head|] == head && stream[|head|] == edges[a].target
  {
    AllSuccessorsAt(ids, edges, visited, i);
    SuccessorsAt(ids, edges, visited[i], a);
    Nested(roots, AllSuccessors(ids, edges, visited[..i]), Successors(ids, edges[..a], visited[i]), edges[a].target,
           Successors(ids, edges[a + 1..], visited[i]), AllSuccessors(ids, edges, visited[i + 1..]));
  }

  lemma Nested(r: seq<NodeId>, e: seq<NodeId>, b: seq<NodeId>, x: NodeId, c: seq<NodeId>, d: seq<NodeId>)
    ensures var s, head := r + (e + ((b + ([x] + c)) + d)), r + e + b;
      |head| < |s| && s[..|head|] == head && s[|head|] == x
  {
  }

  lemma NotInHead(ids: set<NodeId>, edges: seq<Edge>, roots: seq<NodeId>, visited: seq<NodeId>, i: nat, a: nat,
                  w: NodeId, j: nat, b: nat)
    requires i < |visited| && a < |edges| && w !in roots && FirstParent(edges, visited, w, j, b)
    requires i < j || (i == j && a < b)
    ensures w !in Head(ids, edges, roots, visited, i, a)
  {
    AllSuccessorsHave(ids, edges, visited[..i], w);
    SuccessorsHave(ids, edges[..a], visited[i]);
  }

  /** The node with the earlier first parent, or the earlier edge from the same first parent, comes first. */
  lemma EarlierParentFirst(ids: set<NodeId>, edges: seq<Edge>, roots: seq<NodeId>, visited: seq<NodeId>,
                           p: nat, i: nat, a: nat, q: nat, j: nat, b: nat)
    requires QueuesItself(ids, edges, roots, visited)
    requires p < |visited| && q < |visited| && p != q && visited[q] !in roots
    requires FirstParent(edges, visited, visited[p], i, a) && FirstParent(edges, visited, visited[q], j, b)
    requires i < j || (i == j && a < b)
    ensures p < q
  {
    VisitedIn(ids, edges, roots, visited);
    HeadAt(ids, edges, roots, visited, i, a);
    NotInHead(ids, edges, roots, visited, i, a, visited[q], j, b);
    UnseenBefore(roots + AllSuccessors(ids, edges, visited), {}, |Head(ids, edges, roots, visited, i, a)|, p, q);
  }
}
