/** Packing diagnosis evidence into a bounded prompt. Items are known by the size of their JSON
    text; a list costs its brackets, its items and the commas between them. */
module PromptBudget {
  import opened Selections

  /** `ref` is the size of the item's reference, or 0 when it has none. */
  datatype Item = Item(size: nat, ref: nat)

  function SumSizes(items: seq<Item>): nat {
    if items == [] then 0 else SumSizes(items[..|items| - 1]) + items[|items| - 1].size
  }

  /** The length of the serialized list. */
  function ListSize(items: seq<Item>): nat {
    2 + SumSizes(items) + if items == [] then 0 else |items| - 1
  }

  lemma AppendSize(items: seq<Item>, item: Item)
    ensures ListSize([]) == 2
    ensures ListSize(items + [item]) == ListSize(items) + item.size + if items == [] then 0 else 1
  {
  }

  /******* Fitting a section *******/

  /** Each item is taken exactly when it still fits behind the items taken before it. */
  function Fit(items: seq<Item>, budget: int): seq<Item> {
    if items == [] then []
    else
      var taken, last := Fit(items[..|items| - 1], budget), items[|items| - 1];
      if ListSize(taken + [last]) <= budget then taken + [last] else taken
  }

  predicate Subsequence(r: seq<Item>, s: seq<Item>) {
    if r == [] then true
    else if s == [] then false
    else
      || (r[|r| - 1] == s[|s| - 1] && Subsequence(r[..|r| - 1], s[..|s| - 1]))
      || Subsequence(r, s[..|s| - 1])
  }

  /** One pass over the projected items. */
  method FitItems<T>(items: seq<T>, budget: int, project: T -> Item)
    returns (included: seq<Item>, available: nat, count: nat)
    ensures included == Fit(seq(|items|, i requires 0 <= i < |items| => project(items[i])), budget)
    ensures available == |items| && count == |included|
  {
    ghost var compact := seq(|items|, i requires 0 <= i < |items| => project(items[i]));
    included := [];
    for i := 0 to |items|
      invariant included == Fit(compact[..i], budget)
    {
      assert compact[..i + 1][..i] == compact[..i] && compact[..i + 1][i] == project(items[i]);
      var candidate := included + [project(items[i])];
      if ListSize(candidate) <= budget {
        included := candidate;
      }
    }
    assert compact[..|items|] == compact;
    available, count := |items|, |included|;
  }

  lemma {:induction false} FitGrows(items: seq<Item>, budget: int, i: nat)
    requires i <= |items|
    ensures Fit(items[..i], budget) <= Fit(items, budget)
    decreases |items|
  {
    if i == |items| {
      assert items[..i] == items;
    } else {
      assert items[..|items| - 1][..i] == items[..i];
      FitGrows(items[..|items| - 1], budget, i);
    }
  }

  lemma {:induction false} LongerIsLarger(xs: seq<Item>, ys: seq<Item>, item: Item)
    requires xs <= ys
    ensures ListSize(xs + [item]) <= ListSize(ys + [item])
    decreases |ys|
  {
    if |xs| < |ys| {
      LongerIsLarger(xs, ys[..|ys| - 1], item);
      AppendSize(ys[..|ys| - 1], item);
      AppendSize(ys, item);
    } else {
      assert xs == ys;
    }
  }

  lemma FitOmits(items: seq<Item>, budget: int, i: nat)
    requires i < |items| && Fit(items[..i + 1], budget) == Fit(items[..i], budget)
    ensures ListSize(Fit(items, budget) + [items[i]]) > budget
  {
    assert items[..i + 1][..i] == items[..i];
    FitGrows(items, budget, i);
    LongerIsLarger(Fit(items[..i], budget), Fit(items, budget), items[i]);
  }

  lemma {:induction false} FitIsSubsequence(items: seq<Item>, budget: int)
    ensures Subsequence(Fit(items, budget), items)
    ensures Fit(items, budget) == [] || ListSize(Fit(items, budget)) <= budget
    decreases |items|
  {
    if items == [] {
    } else {
      FitIsSubsequence(items[..|items| - 1], budget);
    }
  }

  /** The section is an in-order subsequence within budget, and maximal: no omitted item could
      still be appended. Item `i` is omitted when taking it into account adds nothing. */
  lemma {:induction false} FitIsMaximal(items: seq<Item>, budget: int)
    ensures Subsequence(Fit(items, budget), items)
    ensures Fit(items, budget) == [] || ListSize(Fit(items, budget)) <= budget
    ensures forall i :: 0 <= i < |items| && Fit(items[..i + 1], budget) == Fit(items[..i], budget) ==>
      ListSize(Fit(items, budget) + [items[i]]) > budget
  {
    FitIsSubsequence(items, budget);
    forall i | 0 <= i < |items| && Fit(items[..i + 1], budget) == Fit(items[..i], budget)
      ensures ListSize(Fit(items, budget) + [items[i]]) > budget
    {
      FitOmits(items, budget, i);
    }
  }

  /******* The final budget *******/

  datatype Count = Count(available: nat, included: nat)

  const KEYS: seq<string> :=
    ["evidence", "log_highlights", "metrics", "node_log_highlights", "ansible_task_log_highlights",
     "failed_nodes", "approval_records"]

  function Total(lists: seq<seq<Item>>): nat {
    if lists == [] then 0 else Total(lists[..|lists| - 1]) + ListSize(lists[|lists| - 1])
  }

  lemma TotalAppend(lists: seq<seq<Item>>, items: seq<Item>)
    ensures Total([]) == 0 && Total(lists + [items]) == Total(lists) + ListSize(items)
  {
    assert (lists + [items])[..|lists|] == lists;
  }

  /** Empty lists still cost their brackets. */
  lemma {:induction false} TotalAtLeast(lists: seq<seq<Item>>)
    ensures Total(lists) >= 2 * |lists|
    ensures (forall i :: 0 <= i < |lists| ==> lists[i] == []) ==> Total(lists) == 2 * |lists|
  {
    if lists != [] { TotalAtLeast(lists[..|lists| - 1]); }
  }

  function ItemCount(lists: seq<seq<Item>>): nat {
    if lists == [] then 0 else ItemCount(lists[..|lists| - 1]) + |lists[|lists| - 1]|
  }

  function Last(items: seq<Item>): Item
    requires items != []
  {
    items[|items| - 1]
  }

  /** Without the last item of list `k`. */
  function Pop(lists: seq<seq<Item>>, k: nat): seq<seq<Item>>
    requires k < |lists| && lists[k] != []
  {
    lists[k := lists[k][..|lists[k]| - 1]]
  }

  ghost function PopFewer(lists: seq<seq<Item>>, k: nat): (r: seq<seq<Item>>)
    requires k < |lists| && lists[k] != []
    ensures r == Pop(lists, k) && ItemCount(r) < ItemCount(lists)
  {
    PopCounts(lists, k);
    Pop(lists, k)
  }

  lemma {:induction false} PopCounts(lists: seq<seq<Item>>, k: nat)
    requires k < |lists| && lists[k] != []
    ensures ItemCount(Pop(lists, k)) < ItemCount(lists)
  {
    var n, popped := |lists| - 1, Pop(lists, k);
    if k == n {
      assert popped[..n] == lists[..n];
    } else {
      assert popped[..n] == Pop(lists[..n], k);
      PopCounts(lists[..n], k);
    }
  }

  /** What is sent: the whole context, its core metadata, or identifiers only. */
  datatype Prompt =
    | Whole(size: nat)
    | Core(evidence: seq<Item>, size: nat)
    | Identifiers(refs: seq<Item>, size: nat)

  /** Sizes of the parts that are not the seven lists: of the whole context, of the core metadata,
      of the core after shortening its strings, and of the identifiers. */
  datatype Sizes = Sizes(whole: nat, core: nat, shortCore: nat, identifiers: nat)

  /** Every list lost items only at its end. */
  ghost predicate Shortened(before: seq<seq<Item>>, after: seq<seq<Item>>) {
    |after| == |before| && forall i :: 0 <= i < |before| ==> after[i] <= before[i]
  }

  ghost predicate CountsMatch(lists: seq<seq<Item>>, counts: map<string, Count>) {
    && |lists| == |KEYS|
    && (forall i :: 0 <= i < |KEYS| ==> KEYS[i] in counts && counts[KEYS[i]].included == |lists[i]|)
    && (forall k :: k in counts ==> counts[k].included <= counts[k].available)
  }

  /** What removing items until the context fits has done so far. */
  ghost predicate Trimmed(lists0: seq<seq<Item>>, counts0: map<string, Count>,
                          lists: seq<seq<Item>>, counts: map<string, Count>, whole: nat, maxChars: nat)
  {
    && Shortened(lists0, lists) && counts.Keys == counts0.Keys
    && (forall k :: k in counts ==>
          counts[k].available == counts0[k].available && counts[k].included <= counts0[k].included)
    && (lists == lists0 ==> counts == counts0)
    && (lists != lists0 ==> whole + Total(lists0) > maxChars)
  }

  function CountDown(counts: map<string, Count>, key: string): map<string, Count>
    requires key in counts
  {
    counts[key := counts[key].(included := Decremented(counts[key].included))]
  }

  lemma CountsAfterPop(lists: seq<seq<Item>>, counts: map<string, Count>, k: nat)
    requires CountsMatch(lists, counts) && k < |lists| && lists[k] != []
    ensures CountsMatch(Pop(lists, k), CountDown(counts, KEYS[k]))
  {
  }

  lemma TrimOne(lists0: seq<seq<Item>>, counts0: map<string, Count>, lists: seq<seq<Item>>, counts: map<string, Count>,
                k: nat, key: string, whole: nat, maxChars: nat)
    requires key in counts && Trimmed(lists0, counts0, lists, counts, whole, maxChars)
    requires k < |lists| && lists[k] != [] && whole + Total(lists) > maxChars
    ensures Trimmed(lists0, counts0, Pop(lists, k), CountDown(counts, key), whole, maxChars)
  {
  }

  /** Among the first `n` lists, `k` is the first one whose last item is largest. */
  ghost predicate IsLargestLast(lists: seq<seq<Item>>, n: nat, k: nat)
    requires k < n <= |lists|
  {
    && lists[k] != []
    && (forall i :: 0 <= i < k && lists[i] != [] ==> Last(lists[i]).size < Last(lists[k]).size)
    && (forall i :: k <= i < n && lists[i] != [] ==> Last(lists[i]).size <= Last(lists[k]).size)
  }

  /** Removing the largest last item, again and again, until the context fits or nothing is left. */
  ghost predicate TrimsTo(before: seq<seq<Item>>, after: seq<seq<Item>>, whole: nat, maxChars: nat)
    decreases ItemCount(before)
  {
    if whole + Total(before) <= maxChars || (forall i :: 0 <= i < |before| ==> before[i] == []) then after == before
    else exists k: nat ::
      k < |before| && IsLargestLast(before, |before|, k) && TrimsTo(PopFewer(before, k), after, whole, maxChars)
  }

  /** Whatever `now` is trimmed to, `before` is trimmed to. */
  ghost predicate LeadsTo(before: seq<seq<Item>>, now: seq<seq<Item>>, whole: nat, maxChars: nat) {
    forall final :: TrimsTo(now, final, whole, maxChars) ==> TrimsTo(before, final, whole, maxChars)
  }

  lemma LeadsToPop(before: seq<seq<Item>>, now: seq<seq<Item>>, k: nat, whole: nat, maxChars: nat)
    requires LeadsTo(before, now, whole, maxChars) && whole + Total(now) > maxChars
    requires k < |now| && IsLargestLast(now, |now|, k)
    ensures LeadsTo(before, Pop(now, k), whole, maxChars) && ItemCount(Pop(now, k)) < ItemCount(now)
  {
    assert PopFewer(now, k) == Pop(now, k);
    forall final | TrimsTo(Pop(now, k), final, whole, maxChars) ensures TrimsTo(before, final, whole, maxChars) {
      assert TrimsTo(PopFewer(now, k), final, whole, maxChars);
      assert TrimsTo(now, final, whole, maxChars);
    }
  }

  /** The state between two removals. */
  ghost predicate Trimming(lists0: seq<seq<Item>>, counts0: map<string, Count>,
                           lists: seq<seq<Item>>, counts: map<string, Count>, whole: nat, maxChars: nat)
  {
    && CountsMatch(lists, counts)
    && Trimmed(lists0, counts0, lists, counts, whole, maxChars)
    && LeadsTo(lists0, lists, whole, maxChars)
  }

  lemma TrimNext(lists0: seq<seq<Item>>, counts0: map<string, Count>,
                 lists: seq<seq<Item>>, counts: map<string, Count>, k: nat, whole: nat, maxChars: nat)
    requires Trimming(lists0, counts0, lists, counts, whole, maxChars)
    requires k < |lists| && IsLargestLast(lists, |lists|, k) && whole + Total(lists) > maxChars
    ensures Trimming(lists0, counts0, Pop(lists, k), CountDown(counts, KEYS[k]), whole, maxChars)
    ensures ItemCount(Pop(lists, k)) < ItemCount(lists)
  {
    CountsAfterPop(lists, counts, k);
    TrimOne(lists0, counts0, lists, counts, k, KEYS[k], whole, maxChars);
    LeadsToPop(lists0, lists, k, whole, maxChars);
  }

  /** The evidence counts `n`, all other sections count as left out. */
  ghost predicate OnlyEvidence(before: map<string, Count>, after: map<string, Count>, n: nat) {
    && after.Keys == before.Keys
    && forall k :: k in after ==> after[k] == Count(before[k].available, if k == "evidence" then n else 0)
  }

  /** As many of the first items as fit, or none. */
  ghost predicate LongestFit(r: seq<Item>, all: seq<Item>, fixed: nat, maxChars: nat) {
    && r <= all && (fixed + ListSize(r) <= maxChars || r == [])
    && (r == all || fixed + ListSize(all[..|r| + 1]) > maxChars)
  }

  class PromptContext {
    const sizes: Sizes
    const maxChars: nat
    var lists: seq<seq<Item>>
    var counts: map<string, Count>

    constructor (sizes: Sizes, maxChars: nat, lists: seq<seq<Item>>, counts: map<string, Count>)
      ensures this.sizes == sizes && this.maxChars == maxChars && this.lists == lists && this.counts == counts
    {
      this.sizes, this.maxChars, this.lists, this.counts := sizes, maxChars, lists, counts;
    }

    /** What the section builders leave behind: each listed section's count is its length. */
    ghost predicate Counted()
      reads this
    {
      CountsMatch(lists, counts)
    }

    /** The first populated list whose last item is largest. */
    method LargestLast() returns (k: int)
      requires |lists| == |KEYS|
      ensures -1 <= k < |lists|
      ensures k == -1 <==> forall i :: 0 <= i < |lists| ==> lists[i] == []
      ensures k >= 0 ==> IsLargestLast(lists, |lists|, k)
    {
      k := -1;
      for i := 0 to |lists|
        invariant -1 <= k < i
        invariant k == -1 <==> forall j :: 0 <= j < i ==> lists[j] == []
        invariant k >= 0 ==> IsLargestLast(lists, i, k)
      {
        if lists[i] != [] && (k == -1 || Last(lists[k]).size < Last(lists[i]).size) {
          k := i;
        }
      }
    }

    /** Removes the largest last items until the context fits; when nothing is left to remove, falls
        back to the core metadata and then to identifiers. */
    method EnforceFinalBudget() returns (p: Prompt)
      requires Counted()
      modifies this
      ensures Shortened(old(lists), lists) && counts.Keys == old(counts).Keys
      ensures forall k :: k in counts ==> counts[k].available == old(counts)[k].available
      ensures forall k :: k in counts ==> counts[k].included <= old(counts)[k].included
      ensures sizes.whole + Total(old(lists)) <= maxChars ==> lists == old(lists) && counts == old(counts)
      ensures p.Whole? ==> TrimsTo(old(lists), lists, sizes.whole, maxChars)
      ensures p.Whole? ==> Counted() && p.size == sizes.whole + Total(lists) <= maxChars
      ensures !p.Whole? ==> forall i :: 0 <= i < |lists| ==> lists[i] == []
      ensures !p.Whole? ==> forall k :: k in counts ==> counts[k].included == 0
      ensures p.Whole? <==> sizes.whole + 14 <= maxChars
      ensures p.Core? <==> !p.Whole? && (sizes.core + 2 <= maxChars || sizes.shortCore + 2 <= maxChars)
      ensures p.Core? ==> p == Core([], if sizes.core + 2 <= maxChars then sizes.core + 2 else sizes.shortCore + 2)
      ensures p.Identifiers? ==> p == Identifiers([], sizes.identifiers + 2)
    {
      var serialized := TrimToFit();
      TotalAtLeast(lists);
      if serialized <= maxChars {
        return Whole(serialized);
      }
      var evidence := lists[0];
      assert KEYS[0] == "evidence";
      p := FallBack(if |evidence| <= 5 then evidence else evidence[..5]);
    }

    method TrimToFit() returns (serialized: nat)
      requires Counted()
      modifies this
      ensures Counted() && Trimmed(old(lists), old(counts), lists, counts, sizes.whole, maxChars)
      ensures TrimsTo(old(lists), lists, sizes.whole, maxChars)
      ensures serialized == sizes.whole + Total(lists)
      ensures serialized <= maxChars || forall i :: 0 <= i < |lists| ==> lists[i] == []
    {
      serialized := sizes.whole + Total(lists);
      while serialized > maxChars
        invariant Trimming(old(lists), old(counts), lists, counts, sizes.whole, maxChars)
        invariant serialized == sizes.whole + Total(lists)
        decreases ItemCount(lists)
      {
        var k := LargestLast();
        if k == -1 {
          return;
        }
        TrimNext(old(lists), old(counts), lists, counts, k, sizes.whole, maxChars);
        lists := Pop(lists, k);
        counts := CountDown(counts, KEYS[k]);
        serialized := sizes.whole + Total(lists);
      }
    }

    /** The two reduced prompts, each trimmed from the end of its evidence. */
    method FallBack(firstEvidence: seq<Item>) returns (p: Prompt)
      requires |lists| == |KEYS| && "evidence" in counts
      modifies this`counts
      ensures !p.Whole? && OnlyEvidence(old(counts), counts, |if p.Core? then p.evidence else p.refs|)
      ensures p.Core? <==> sizes.core + 2 <= maxChars || sizes.shortCore + 2 <= maxChars
      ensures p.Core? ==> p.size <= maxChars
      ensures p.Core? && sizes.core + 2 <= maxChars ==>
        p.size == sizes.core + ListSize(p.evidence) && LongestFit(p.evidence, firstEvidence, sizes.core, maxChars)
      ensures p.Core? && sizes.core + 2 > maxChars ==> p == Core([], sizes.shortCore + 2)
      ensures p.Identifiers? ==>
        && p.size == sizes.identifiers + ListSize(p.refs)
        && LongestFit(p.refs, References(lists[0]), sizes.identifiers, maxChars)
    {
      counts := map k | k in counts :: counts[k].(included := if k == "evidence" then |firstEvidence| else 0);
      var evidence, serialized := TrimEvidence(firstEvidence);
      if serialized > maxChars {
        serialized := sizes.shortCore + ListSize(evidence);
      }
      if serialized <= maxChars {
        return Core(evidence, serialized);
      }
      var refs;
      refs, serialized := DropRefs(References(lists[0]), sizes.identifiers);
      counts := counts["evidence" := counts["evidence"].(included := |refs|)];
      return Identifiers(refs, serialized);
    }

    /** As much of the evidence as fits beside the core metadata. */
    method TrimEvidence(all: seq<Item>) returns (evidence: seq<Item>, serialized: nat)
      requires "evidence" in counts && counts["evidence"].included == |all|
      modifies this`counts
      ensures serialized == sizes.core + ListSize(evidence) && LongestFit(evidence, all, sizes.core, maxChars)
      ensures serialized <= maxChars <==> sizes.core + 2 <= maxChars
      ensures counts == old(counts)["evidence" := old(counts)["evidence"].(included := |evidence|)]
    {
      evidence, serialized := all, sizes.core + ListSize(all);
      while serialized > maxChars && evidence != []
        invariant evidence <= all && serialized == sizes.core + ListSize(evidence)
        invariant counts == old(counts)["evidence" := old(counts)["evidence"].(included := |evidence|)]
        invariant evidence == all || sizes.core + ListSize(all[..|evidence| + 1]) > maxChars
        decreases |evidence|
      {
        assert evidence == all[..|evidence|];
        evidence := evidence[..|evidence| - 1];
        counts := CountDown(counts, "evidence");
        serialized := sizes.core + ListSize(evidence);
      }
    }

    /** The identifiers with as many of the references as fit. */
    method DropRefs(all: seq<Item>, fixed: nat) returns (refs: seq<Item>, serialized: nat)
      ensures serialized == fixed + ListSize(refs) && LongestFit(refs, all, fixed, maxChars)
    {
      refs := all;
      serialized := fixed + ListSize(refs);
      while serialized > maxChars && refs != []
        invariant refs <= all && serialized == fixed + ListSize(refs)
        invariant refs == all || fixed + ListSize(all[..|refs| + 1]) > maxChars
        decreases |refs|
      {
        assert refs == all[..|refs|];
        refs := refs[..|refs| - 1];
        serialized := fixed + ListSize(refs);
      }
    }
  }

  function Decremented(n: nat): nat {
    if n == 0 then 0 else n - 1
  }

  /** The first ten references of the evidence that has one. */
  function References(evidence: seq<Item>): (r: seq<Item>)
    ensures |r| <= 10
  {
    var refs := AllReferences(evidence);
    if |refs| <= 10 then refs else refs[..10]
  }

  function AllReferences(evidence: seq<Item>): seq<Item> {
    if evidence == [] then []
    else
      var front, last := evidence[..|evidence| - 1], evidence[|evidence| - 1];
      AllReferences(front) + if last.ref > 0 then [Item(last.ref, 0)] else []
  }

  predicate HasReference(item: Item) {
    item.ref > 0
  }

  /** The evidence with a reference, in order, each by that reference. */
  lemma {:induction false} ReferencesSelect(evidence: seq<Item>) returns (ks: seq<nat>, chosen: seq<Item>)
    ensures Selects(ks, evidence, chosen, HasReference) && |AllReferences(evidence)| == |chosen|
    ensures forall i :: 0 <= i < |chosen| ==> AllReferences(evidence)[i] == Item(chosen[i].ref, 0)
  {
    if evidence == [] {
      ks, chosen := [], [];
    } else {
      var front, last := evidence[..|evidence| - 1], evidence[|evidence| - 1];
      ks, chosen := ReferencesSelect(front);
      SelectsAppend(ks, front, chosen, HasReference, last);
      assert evidence == front + [last];
      if HasReference(last) { ks, chosen := ks + [|front|], chosen + [last]; }
    }
  }
}
