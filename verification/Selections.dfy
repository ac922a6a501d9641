/** Filtering a sequence, said by positions: what is kept, everything that should be, and in its order. */
module Selections {

  /** `r` lists the elements of `s` at the positions `ks`, which rise and are exactly those to keep. */
  ghost predicate Selects<T(!new)>(ks: seq<nat>, s: seq<T>, r: seq<T>, keep: T -> bool) {
    && |ks| == |r|
    && (forall a, b :: 0 <= a < b < |ks| ==> ks[a] < ks[b])
    && (forall a :: 0 <= a < |ks| ==> ks[a] < |s| && r[a] == s[ks[a]])
    && (forall i :: 0 <= i < |s| ==> (keep(s[i]) <==> i in ks))
  }

  lemma SelectsAppend<T(!new)>(ks: seq<nat>, s: seq<T>, r: seq<T>, keep: T -> bool, x: T)
    requires Selects(ks, s, r, keep)
    ensures if keep(x) then Selects(ks + [|s|], s + [x], r + [x], keep) else Selects(ks, s + [x], r, keep)
  {
  }

  /** The positions after one more element in front. */
  function Behind(ks: seq<nat>): (r: seq<nat>)
    ensures |r| == |ks| && forall a :: 0 <= a < |r| ==> r[a] == ks[a] + 1
  {
    seq(|ks|, a requires 0 <= a < |ks| => ks[a] + 1)
  }

  lemma BehindHas(ks: seq<nat>, i: nat)
    ensures i in Behind(ks) <==> i > 0 && i - 1 in ks
  {
    if i > 0 && i - 1 in ks {
      var a :| 0 <= a < |ks| && ks[a] == i - 1;
      assert Behind(ks)[a] == i;
    }
  }

  lemma SelectsSkip<T(!new)>(ks: seq<nat>, s: seq<T>, r: seq<T>, keep: T -> bool)
    requires s != [] && !keep(s[0]) && Selects(ks, s[1..], r, keep)
    ensures Selects(Behind(ks), s, r, keep)
  {
    forall a | 0 <= a < |ks| ensures r[a] == s[ks[a] + 1] { assert s[1..][ks[a]] == s[ks[a] + 1]; }
    forall i | 0 <= i < |s| ensures keep(s[i]) <==> i in Behind(ks) {
      BehindHas(ks, i);
      if i > 0 { assert s[1..][i - 1] == s[i]; }
    }
  }

  lemma SelectsTake<T(!new)>(ks: seq<nat>, s: seq<T>, r: seq<T>, keep: T -> bool)
    requires s != [] && keep(s[0]) && Selects(ks, s[1..], r, keep)
    ensures Selects([0] + Behind(ks), s, [s[0]] + r, keep)
  {
    TakenPositions(ks, s, r);
    forall i | 0 <= i < |s| ensures keep(s[i]) <==> i in [0] + Behind(ks) {
      BehindHas(ks, i);
      if i > 0 { assert s[1..][i - 1] == s[i]; }
    }
  }

  lemma TakenPositions<T(!new)>(ks: seq<nat>, s: seq<T>, r: seq<T>)
    requires s != [] && |ks| == |r| && forall a, b :: 0 <= a < b < |ks| ==> ks[a] < ks[b]
    requires forall a :: 0 <= a < |ks| ==> ks[a] < |s[1..]| && r[a] == s[1..][ks[a]]
    ensures var ls, t := [0] + Behind(ks), [s[0]] + r;
      && (forall a, b :: 0 <= a < b < |ls| ==> ls[a] < ls[b])
      && (forall a :: 0 <= a < |ls| ==> ls[a] < |s| && t[a] == s[ls[a]])
  {
  }
}
