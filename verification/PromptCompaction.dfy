/** Shortening the values that go into a diagnosis prompt: nesting, container sizes and strings are
    all bounded, and raw payloads are dropped. */
module PromptCompaction {
  import opened Selections

  /** Objects keep their insertion order; `Scalar` stands for null, booleans and numbers. */
  datatype Value =
    | Scalar(n: int)
    | Text(s: string)
    | List(items: seq<Value>)
    | Dict(fields: seq<Field>)

  datatype Field = Field(key: string, value: Value)

  datatype Limits = Limits(maxDepth: nat, maxItems: nat, maxString: nat)

  const MARK: string := "...[truncated]"
  const CUT: string := "[truncated]"

  function CompactString(s: string, limit: nat): string {
    if |s| <= limit then s else s[..if limit < 14 then 0 else limit - 14] + MARK
  }

  function Compact(v: Value, limits: Limits, depth: nat): Value
    decreases v
  {
    if depth >= limits.maxDepth && (v.List? || v.Dict?) then Text(CUT)
    else match v
      case Scalar(_) => v
      case Text(s) => Text(CompactString(s, limits.maxString))
      case List(items) => List(CompactItems(items, limits.maxItems, limits, depth + 1))
      case Dict(fields) => Dict(CompactFields(fields, limits.maxItems, limits, depth + 1))
  }

  /** The first `room` items. */
  function CompactItems(items: seq<Value>, room: nat, limits: Limits, depth: nat): seq<Value>
    decreases items
  {
    if items == [] || room == 0 then []
    else [Compact(items[0], limits, depth)] + CompactItems(items[1..], room - 1, limits, depth)
  }

  /** The first `room` fields without the raw payload, which takes up room all the same. */
  function CompactFields(fields: seq<Field>, room: nat, limits: Limits, depth: nat): seq<Field>
    decreases fields
  {
    if fields == [] || room == 0 then []
    else
      (if fields[0].key == "raw" then [] else [Field(fields[0].key, Compact(fields[0].value, limits, depth))])
      + CompactFields(fields[1..], room - 1, limits, depth)
  }

  /******* What is kept *******/

  /** A cut string keeps as much of its beginning as the mark leaves room for. */
  lemma CutString(s: string, limit: nat)
    ensures |s| <= limit ==> CompactString(s, limit) == s
    ensures |s| > limit ==> exists kept ::
      && kept <= s && |kept| == (if limit < 14 then 0 else limit - 14)
      && CompactString(s, limit) == kept + "...[truncated]"
  {
    if |s| > limit {
      var kept := s[..if limit < 14 then 0 else limit - 14];
      assert kept <= s && CompactString(s, limit) == kept + "...[truncated]";
    }
  }

  /** Scalars stay, strings are cut, and a container that is nested too deep becomes the bare mark. */
  lemma CompactPlain(v: Value, limits: Limits, depth: nat)
    ensures v.Scalar? ==> Compact(v, limits, depth) == v
    ensures v.Text? ==> Compact(v, limits, depth) == Text(CompactString(v.s, limits.maxString))
    ensures (v.List? || v.Dict?) && depth >= limits.maxDepth ==> Compact(v, limits, depth) == Text("[truncated]")
  {
  }

  /** Of any other list the first items stay, each compacted one level deeper. */
  lemma CompactList(items: seq<Value>, limits: Limits, depth: nat)
    requires depth < limits.maxDepth
    ensures var r := Compact(List(items), limits, depth);
      && r.List? && |r.items| == (if |items| <= limits.maxItems then |items| else limits.maxItems)
      && forall i :: 0 <= i < |r.items| ==> r.items[i] == Compact(items[i], limits, depth + 1)
  {
    ItemsKept(items, limits.maxItems, limits, depth + 1);
  }

  /** Of an object those of the first fields stay that are not called `raw`, each compacted likewise. */
  lemma CompactDict(fields: seq<Field>, limits: Limits, depth: nat) returns (ks: seq<nat>, kept: seq<Field>)
    requires depth < limits.maxDepth
    ensures Selects(ks, FirstFields(fields, limits.maxItems), kept, NotRaw)
    ensures var r := Compact(Dict(fields), limits, depth);
      r.Dict? && EachCompacted(kept, r.fields, limits, depth + 1)
  {
    ks, kept := FieldsKept(fields, limits.maxItems, limits, depth + 1);
  }

  /** The first `room` items, each compacted, in their order. */
  lemma {:induction false} ItemsKept(items: seq<Value>, room: nat, limits: Limits, depth: nat)
    ensures var r := CompactItems(items, room, limits, depth);
      && |r| == (if |items| <= room then |items| else room)
      && forall i :: 0 <= i < |r| ==> r[i] == Compact(items[i], limits, depth)
    decreases items
  {
    if items == [] || room == 0 {
    } else {
      ItemsKept(items[1..], room - 1, limits, depth);
    }
  }

  predicate NotRaw(f: Field) {
    f.key != "raw"
  }

  function FirstFields(fields: seq<Field>, room: nat): seq<Field> {
    if |fields| <= room then fields else fields[..room]
  }

  ghost predicate EachCompacted(kept: seq<Field>, r: seq<Field>, limits: Limits, depth: nat) {
    |r| == |kept| && forall i :: 0 <= i < |r| ==> r[i] == Field(kept[i].key, Compact(kept[i].value, limits, depth))
  }

  /** Among the first `room` fields, those not called `raw`, each compacted, in their order. */
  lemma {:induction false} FieldsKept(fields: seq<Field>, room: nat, limits: Limits, depth: nat)
    returns (ks: seq<nat>, kept: seq<Field>)
    ensures Selects(ks, FirstFields(fields, room), kept, NotRaw)
    ensures EachCompacted(kept, CompactFields(fields, room, limits, depth), limits, depth)
    decreases fields
  {
    if fields == [] || room == 0 {
      ks, kept := [], [];
      assert FirstFields(fields, room) == [] && CompactFields(fields, room, limits, depth) == [];
    } else {
      var rest, others := FieldsKept(fields[1..], room - 1, limits, depth);
      if NotRaw(fields[0]) {
        ks, kept := [0] + Behind(rest), [fields[0]] + others;
        FieldTaken(fields, room, limits, depth, rest, others);
      } else {
        ks, kept := Behind(rest), others;
        FieldSkipped(fields, room, limits, depth, rest, others);
      }
    }
  }

  lemma FieldTaken(fields: seq<Field>, room: nat, limits: Limits, depth: nat, rest: seq<nat>, others: seq<Field>)
    requires fields != [] && room > 0 && NotRaw(fields[0])
    requires Selects(rest, FirstFields(fields[1..], room - 1), others, NotRaw)
    requires EachCompacted(others, CompactFields(fields[1..], room - 1, limits, depth), limits, depth)
    ensures Selects([0] + Behind(rest), FirstFields(fields, room), [fields[0]] + others, NotRaw)
    ensures EachCompacted([fields[0]] + others, CompactFields(fields, room, limits, depth), limits, depth)
  {
    FirstBehind(fields, room);
    SelectsTake(rest, FirstFields(fields, room), others, NotRaw);
    CompactedTake(fields[0], others, CompactFields(fields[1..], room - 1, limits, depth), limits, depth);
  }

  lemma FieldSkipped(fields: seq<Field>, room: nat, limits: Limits, depth: nat, rest: seq<nat>, others: seq<Field>)
    requires fields != [] && room > 0 && !NotRaw(fields[0])
    requires Selects(rest, FirstFields(fields[1..], room - 1), others, NotRaw)
    requires EachCompacted(others, CompactFields(fields[1..], room - 1, limits, depth), limits, depth)
    ensures Selects(Behind(rest), FirstFields(fields, room), others, NotRaw)
    ensures EachCompacted(others, CompactFields(fields, room, limits, depth), limits, depth)
  {
    FirstBehind(fields, room);
    SelectsSkip(rest, FirstFields(fields, room), others, NotRaw);
    var r := CompactFields(fields[1..], room - 1, limits, depth);
    assert [] + r == r;
  }

  lemma FirstBehind(fields: seq<Field>, room: nat)
    requires fields != [] && room > 0
    ensures FirstFields(fields, room) != [] && FirstFields(fields, room)[0] == fields[0]
    ensures FirstFields(fields, room)[1..] == FirstFields(fields[1..], room - 1)
  {
  }

  lemma CompactedTake(f: Field, others: seq<Field>, r: seq<Field>, limits: Limits, depth: nat)
    requires EachCompacted(others, r, limits, depth)
    ensures EachCompacted([f] + others, [Field(f.key, Compact(f.value, limits, depth))] + r, limits, depth)
  {
  }

  /** A string within the limit, or the bare mark, which is as short as a cut string gets. */
  predicate FitsString(s: string, limit: nat) {
    |s| <= limit || (limit < 14 && s == MARK)
  }

  /** Bounded in depth, in every container and in every string, and without raw payloads. */
  predicate Fits(v: Value, limits: Limits, depth: nat)
    decreases v
  {
    match v
    case Scalar(_) => true
    case Text(s) => FitsString(s, limits.maxString)
    case List(items) =>
      depth < limits.maxDepth && |items| <= limits.maxItems && forall i | i in items :: Fits(i, limits, depth + 1)
    case Dict(fields) =>
      depth < limits.maxDepth && |fields| <= limits.maxItems &&
      forall f | f in fields :: f.key != "raw" && Fits(f.value, limits, depth + 1)
  }

  /** What is left alone is exactly what is within the bounds. */
  lemma {:induction false} CompactFixed(v: Value, limits: Limits, depth: nat)
    ensures Compact(v, limits, depth) == v <==> Fits(v, limits, depth)
    decreases v
  {
    match v
    case List(items) => if depth < limits.maxDepth { ItemsFixed(items, limits.maxItems, limits, depth + 1); }
    case Dict(fields) => if depth < limits.maxDepth { FieldsFixed(fields, limits.maxItems, limits, depth + 1); }
    case _ =>
  }

  lemma {:induction false} ItemsFixed(items: seq<Value>, room: nat, limits: Limits, depth: nat)
    ensures CompactItems(items, room, limits, depth) == items <==>
      |items| <= room && forall i | i in items :: Fits(i, limits, depth)
    decreases items
  {
    if items == [] || room == 0 {
    } else {
      CompactFixed(items[0], limits, depth);
      ItemsFixed(items[1..], room - 1, limits, depth);
      assert items == [items[0]] + items[1..];
    }
  }

  lemma {:induction false} FieldsFixed(fields: seq<Field>, room: nat, limits: Limits, depth: nat)
    ensures |CompactFields(fields, room, limits, depth)| <= |fields|
    ensures CompactFields(fields, room, limits, depth) == fields <==>
      |fields| <= room && forall f | f in fields :: f.key != "raw" && Fits(f.value, limits, depth)
    decreases fields
  {
    if fields == [] || room == 0 {
    } else {
      CompactFixed(fields[0].value, limits, depth);
      FieldsFixed(fields[1..], room - 1, limits, depth);
      assert fields == [fields[0]] + fields[1..];
    }
  }

  /** Compaction always lands within the bounds, provided the mark for a cut container does. */
  lemma {:induction false} CompactFits(v: Value, limits: Limits, depth: nat)
    requires |CUT| <= limits.maxString
    ensures Fits(Compact(v, limits, depth), limits, depth)
    decreases v
  {
    match v
    case List(items) => if depth < limits.maxDepth { ItemsFit(items, limits.maxItems, limits, depth + 1); }
    case Dict(fields) => if depth < limits.maxDepth { FieldsFit(fields, limits.maxItems, limits, depth + 1); }
    case _ =>
  }

  lemma {:induction false} ItemsFit(items: seq<Value>, room: nat, limits: Limits, depth: nat)
    requires |CUT| <= limits.maxString
    ensures |CompactItems(items, room, limits, depth)| <= room
    ensures forall i | i in CompactItems(items, room, limits, depth) :: Fits(i, limits, depth)
    decreases items
  {
    if items == [] || room == 0 {
    } else {
      CompactFits(items[0], limits, depth);
      ItemsFit(items[1..], room - 1, limits, depth);
    }
  }

  lemma {:induction false} FieldsFit(fields: seq<Field>, room: nat, limits: Limits, depth: nat)
    requires |CUT| <= limits.maxString
    ensures |CompactFields(fields, room, limits, depth)| <= room
    ensures forall f | f in CompactFields(fields, room, limits, depth) :: f.key != "raw" && Fits(f.value, limits, depth)
    decreases fields
  {
    if fields == [] || room == 0 {
    } else {
      CompactFits(fields[0].value, limits, depth);
      FieldsFit(fields[1..], room - 1, limits, depth);
    }
  }

  /** Compacting twice is compacting once. */
  lemma CompactTwice(v: Value, limits: Limits, depth: nat)
    requires |CUT| <= limits.maxString
    ensures Compact(Compact(v, limits, depth), limits, depth) == Compact(v, limits, depth)
  {
    CompactFits(v, limits, depth);
    CompactFixed(Compact(v, limits, depth), limits, depth);
  }

  /******* Total size *******/

  /** The number of values in a value, itself included. */
  function Count(v: Value): nat
    decreases v
  {
    match v
    case List(items) => 1 + CountItems(items)
    case Dict(fields) => 1 + CountFields(fields)
    case _ => 1
  }

  function CountItems(items: seq<Value>): nat
    decreases items
  {
    if items == [] then 0 else Count(items[0]) + CountItems(items[1..])
  }

  function CountFields(fields: seq<Field>): nat
    decreases fields
  {
    if fields == [] then 0 else Count(fields[0].value) + CountFields(fields[1..])
  }

  /** A full tree with this many levels of containers. */
  function FullCount(levels: nat, maxItems: nat): nat {
    if levels == 0 then 1 else 1 + maxItems * FullCount(levels - 1, maxItems)
  }

  function Below(limits: Limits, depth: nat): nat {
    FullCount(if depth < limits.maxDepth then limits.maxDepth - depth else 0, limits.maxItems)
  }

  /** So the compacted value has no more parts than a full tree of the allowed shape. */
  lemma {:induction false} FitsIsSmall(v: Value, limits: Limits, depth: nat)
    requires Fits(v, limits, depth)
    ensures Count(v) <= Below(limits, depth)
    decreases v
  {
    match v
    case List(items) =>
      ItemsAreSmall(items, limits, depth + 1);
      MoreIsMore(|items|, limits.maxItems, Below(limits, depth + 1));
    case Dict(fields) =>
      FieldsAreSmall(fields, limits, depth + 1);
      MoreIsMore(|fields|, limits.maxItems, Below(limits, depth + 1));
    case _ =>
  }

  lemma MoreIsMore(m: nat, n: nat, k: nat)
    requires m <= n
    ensures m * k <= n * k
  {
  }

  lemma OneMore(m: nat, k: nat)
    requires m > 0
    ensures m * k == k + (m - 1) * k
  {
  }

  lemma {:induction false} ItemsAreSmall(items: seq<Value>, limits: Limits, depth: nat)
    requires forall i | i in items :: Fits(i, limits, depth)
    ensures CountItems(items) <= |items| * Below(limits, depth)
    decreases items
  {
    if items == [] {
    } else {
      FitsIsSmall(items[0], limits, depth);
      ItemsAreSmall(items[1..], limits, depth);
      OneMore(|items|, Below(limits, depth));
    }
  }

  lemma {:induction false} FieldsAreSmall(fields: seq<Field>, limits: Limits, depth: nat)
    requires forall f | f in fields :: Fits(f.value, limits, depth)
    ensures CountFields(fields) <= |fields| * Below(limits, depth)
    decreases fields
  {
    if fields == [] {
    } else {
      FitsIsSmall(fields[0].value, limits, depth);
      FieldsAreSmall(fields[1..], limits, depth);
      OneMore(|fields|, Below(limits, depth));
    }
  }
}
