/** Walks over a finite relation: reachability, duality, acyclicity, and the set of ancestors,
    which shrinks along the edges of an acyclic relation. */
module Paths {

  /** There is a walk of exactly `k` edges from `a` to `b`. */
  ghost predicate Walk<T(!new)>(E: set<(T, T)>, k: nat, a: T, b: T) {
    if k == 0 then a == b else exists c :: (a, c) in E && Walk(E, k - 1, c, b)
  }

  /** `b` is `a`, or can be reached from it. */
  ghost predicate Reach<T(!new)>(E: set<(T, T)>, a: T, b: T) {
    exists k: nat :: Walk(E, k, a, b)
  }

  /** `b` can be reached from `a` over at least one edge. */
  ghost predicate ReachPlus<T(!new)>(E: set<(T, T)>, a: T, b: T) {
    exists k: nat :: 0 < k && Walk(E, k, a, b)
  }

  ghost predicate Acyclic<T(!new)>(E: set<(T, T)>) {
    forall a :: !ReachPlus(E, a, a)
  }

  ghost function Flip<T>(E: set<(T, T)>): set<(T, T)> {
    set e | e in E :: (e.1, e.0)
  }

  lemma WalkOne<T(!new)>(E: set<(T, T)>, a: T, b: T)
    requires (a, b) in E
    ensures Walk(E, 1, a, b)
  {
  }

  lemma {:induction false} WalkConcat<T(!new)>(E: set<(T, T)>, j: nat, k: nat, a: T, b: T, c: T)
    requires Walk(E, j, a, b) && Walk(E, k, b, c)
    ensures Walk(E, j + k, a, c)
  {
    if j == 0 {
    } else {
      var d :| (a, d) in E && Walk(E, j - 1, d, b);
      WalkConcat(E, j - 1, k, d, b, c);
      assert Walk(E, j + k - 1, d, c);
    }
  }

  lemma {:induction false} WalkMono<T(!new)>(E: set<(T, T)>, F: set<(T, T)>, k: nat, a: T, b: T)
    requires (forall x, y :: (x, y) in E ==> (x, y) in F) && Walk(E, k, a, b)
    ensures Walk(F, k, a, b)
  {
    if k == 0 {
    } else {
      var c :| (a, c) in E && Walk(E, k - 1, c, b);
      WalkMono(E, F, k - 1, c, b);
    }
  }

  /** The last edge of a non-empty walk. */
  lemma {:induction false} WalkLast<T(!new)>(E: set<(T, T)>, k: nat, a: T, b: T) returns (c: T)
    requires 0 < k && Walk(E, k, a, b)
    ensures Walk(E, k - 1, a, c) && (c, b) in E
  {
    var d :| (a, d) in E && Walk(E, k - 1, d, b);
    if k == 1 {
      c := a;
    } else {
      c := WalkLast(E, k - 1, d, b);
    }
  }

  lemma {:induction false} WalkFlip<T(!new)>(E: set<(T, T)>, k: nat, a: T, b: T)
    requires Walk(E, k, a, b)
    ensures Walk(Flip(E), k, b, a)
  {
    if k == 0 {
    } else {
      var c :| (a, c) in E && Walk(E, k - 1, c, b);
      WalkFlip(E, k - 1, c, b);
      assert (c, a) in Flip(E) by { assert ((a, c).1, (a, c).0) == (c, a); }
      WalkOne(Flip(E), c, a);
      WalkConcat(Flip(E), k - 1, 1, b, c, a);
    }
  }

  /** Ancestors and descendants are dual, on cyclic graphs too. */
  lemma FlipDuality<T(!new)>(E: set<(T, T)>, a: T, b: T)
    ensures Reach(Flip(E), b, a) <==> Reach(E, a, b)
    ensures ReachPlus(Flip(E), b, a) <==> ReachPlus(E, a, b)
  {
    assert Flip(Flip(E)) == E by {
      forall e | e in E ensures e in Flip(Flip(E)) { assert (e.1, e.0) in Flip(E); }
    }
    forall k: nat ensures Walk(E, k, a, b) <==> Walk(Flip(E), k, b, a) {
      if Walk(E, k, a, b) { WalkFlip(E, k, a, b); }
      if Walk(Flip(E), k, b, a) { WalkFlip(Flip(E), k, b, a); }
    }
  }

  lemma ReachTrans<T(!new)>(E: set<(T, T)>, a: T, b: T, c: T)
    requires Reach(E, a, b) && Reach(E, b, c)
    ensures Reach(E, a, c)
    ensures ReachPlus(E, a, b) || ReachPlus(E, b, c) ==> ReachPlus(E, a, c)
  {
    var j: nat :| Walk(E, j, a, b) && (ReachPlus(E, a, b) ==> 0 < j);
    var k: nat :| Walk(E, k, b, c) && (ReachPlus(E, b, c) ==> 0 < k);
    WalkConcat(E, j, k, a, b, c);
  }

  lemma ReachEdge<T(!new)>(E: set<(T, T)>, a: T, b: T)
    requires (a, b) in E
    ensures ReachPlus(E, a, b) && Reach(E, a, b)
  {
    WalkOne(E, a, b);
  }

  lemma ReachRefl<T(!new)>(E: set<(T, T)>, a: T)
    ensures Reach(E, a, a)
  {
    assert Walk(E, 0, a, a);
  }

  /** A set closed under the relation keeps every walk that starts inside it. */
  lemma {:induction false} ClosedKeepsWalk<T(!new)>(E: set<(T, T)>, C: set<T>, k: nat, a: T, b: T)
    requires forall x, y :: (x, y) in E && x in C ==> y in C
    requires a in C && Walk(E, k, a, b)
    ensures b in C
  {
    if k == 0 {
    } else {
      var c :| (a, c) in E && Walk(E, k - 1, c, b);
      ClosedKeepsWalk(E, C, k - 1, c, b);
    }
  }

  /** The members of `S` that reach `n` over at least one edge. */
  ghost function Ancestors<T(!new)>(E: set<(T, T)>, S: set<T>, n: T): set<T> {
    set m | m in S && ReachPlus(E, m, n)
  }

  /** Without a cycle at `m`, a predecessor has strictly fewer ancestors. */
  lemma FewerAncestors<T(!new)>(E: set<(T, T)>, S: set<T>, m: T, n: T)
    requires m in S && (m, n) in E && !ReachPlus(E, m, m)
    ensures Ancestors(E, S, m) < Ancestors(E, S, n)
  {
    ReachEdge(E, m, n);
    assert m in Ancestors(E, S, n) && m !in Ancestors(E, S, m);
    forall x | x in Ancestors(E, S, m) ensures x in Ancestors(E, S, n) {
      assert Reach(E, x, m);
      ReachTrans(E, x, m, n);
    }
  }
}
