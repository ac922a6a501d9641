/** The configuration cache: single items, whole categories and the whole configuration are cached
    under text keys and must agree with the table. Cache operations succeed; entries may vanish. */
module ConfigCache {
  import opened Options

  datatype Value = NullValue | Value(text: string)

  datatype Row = Row(value: Value, isActive: bool)

  type Items = map<string, Value>

  /** One row per (category, key), as the uniqueness constraint demands. */
  type Table = map<(string, string), Row>

  datatype Entry = ItemEntry(value: Value) | CategoryEntry(items: Items) | AllEntry(all: map<string, Items>)

  datatype State = State(categories: set<string>, table: Table, cache: map<string, Entry>)

  /******* Cache keys *******/

  const PREFIX: string := "config:center:"
  const ALL_ITEMS: string := PREFIX + "all_items"

  function ItemKey(category: string, key: string): string {
    PREFIX + category + ":" + key
  }

  function CategoryKey(category: string): string {
    PREFIX + "category:" + category
  }

  /** Neither name, with its colon, begins the other. */
  predicate Separate(c: string, d: string) {
    !(c + ":" <= d + ":") && !(d + ":" <= c + ":")
  }

  /** No item key of `c` is the category key of `d`. */
  predicate OffCategoryKey(c: string, d: string) {
    !(c + ":" <= "category:" + d)
  }

  /** The condition on the existing categories and on the names in use, asked for ones included. */
  ghost predicate Exact(categories: set<string>, names: set<string>) {
    forall c, d :: c in categories && d in names ==>
      (c != d ==> Separate(c, d)) && OffCategoryKey(c, d) && OffCategoryKey(d, c)
  }

  lemma KeyTexts()
    ensures ItemKey("db", "host") == "config:center:db:host"
    ensures CategoryKey("db") == "config:center:category:db" && ALL_ITEMS == "config:center:all_items"
  {
  }

  lemma SharedPrefix(a: string, x: string, b: string, y: string)
    requires a + x == b + y && |a| <= |b|
    ensures a <= b
  {
    assert forall i :: 0 <= i < |a| ==> (a + x)[i] == a[i] && (b + y)[i] == b[i];
  }

  /** Two different categories share an item key exactly when they are not separate. */
  lemma ItemKeysCollide(c: string, d: string)
    requires c != d
    ensures (exists k, l :: ItemKey(c, k) == ItemKey(d, l)) <==> !Separate(c, d)
  {
    if k, l :| ItemKey(c, k) == ItemKey(d, l) {
      Unprefix(c, k, d, l);
      if |c| <= |d| { SharedPrefix(c + ":", k, d + ":", l); } else { SharedPrefix(d + ":", l, c + ":", k); }
    }
    if c + ":" <= d + ":" {
      ExtendKey(c, d);
    } else if d + ":" <= c + ":" {
      ExtendKey(d, c);
    }
  }

  lemma Unprefix(c: string, k: string, d: string, l: string)
    requires ItemKey(c, k) == ItemKey(d, l)
    ensures (c + ":") + k == (d + ":") + l
  {
    assert ItemKey(c, k)[|PREFIX|..] == (c + ":") + k;
    assert ItemKey(d, l)[|PREFIX|..] == (d + ":") + l;
  }

  lemma ExtendKey(c: string, d: string)
    requires c + ":" <= d + ":"
    ensures exists k, l :: ItemKey(c, k) == ItemKey(d, l) && ItemKey(d, l) == ItemKey(c, k)
  {
    var k := (d + ":")[|c + ":"|..];
    assert (c + ":") + k == d + ":";
    assert ItemKey(c, k) == PREFIX + ((c + ":") + k) == ItemKey(d, "");
  }

  lemma CategoryKeyIsItemKey(n: string)
    ensures CategoryKey(n) == ItemKey("category", n)
  {
  }

  /** An item key of `c` is the category key of `d` exactly when it is not off it. */
  lemma ItemMeetsCategory(c: string, d: string)
    ensures (exists k :: ItemKey(c, k) == CategoryKey(d)) <==> !OffCategoryKey(c, d)
  {
    CategoryKeyIsItemKey(d);
    if k :| ItemKey(c, k) == CategoryKey(d) {
      Unprefix(c, k, "category", d);
      assert "category" + ":" == "category:";
      assert (c + ":") + k == "category:" + d;
    }
    if c + ":" <= "category:" + d {
      var k := ("category:" + d)[|c + ":"|..];
      assert (c + ":") + k == "category:" + d;
      assert ItemKey(c, k) == PREFIX + ((c + ":") + k) == CategoryKey(d);
    }
  }

  /** Colon-free names other than `category` are always fine. */
  lemma ColonFreeIsExact(categories: set<string>, names: set<string>)
    requires categories <= names && "category" !in names && forall c :: c in names ==> ':' !in c
    ensures Exact(categories, names)
  {
    forall c, d | c != d && ':' !in c && ':' !in d ensures Separate(c, d) {
      if c + ":" <= d + ":" { ColonFreePrefix(c, d); }
      if d + ":" <= c + ":" { ColonFreePrefix(d, c); }
    }
    forall c, d | c != "category" && ':' !in c ensures OffCategoryKey(c, d) {
      if c + ":" <= "category:" + d { BeforeColon(c, "category", d); }
    }
  }

  /** The part before the first colon is determined. */
  lemma BeforeColon(c: string, w: string, d: string)
    requires ':' !in c && ':' !in w && c + ":" <= w + ":" + d
    ensures c == w
  {
    var t := w + ":" + d;
    assert t[|c|] == (c + ":")[|c|] == ':' && t[|w|] == ':';
    assert forall i :: 0 <= i < |c| ==> t[i] == (c + ":")[i] == c[i];
    assert forall i :: 0 <= i < |w| ==> t[i] == w[i];
    assert |c| == |w|;
  }

  lemma ColonFreePrefix(c: string, d: string)
    requires ':' !in d && c + ":" <= d + ":"
    ensures c == d
  {
    assert (d + ":")[|c|] == (c + ":")[|c|] == ':';
    assert forall i :: 0 <= i < |d| ==> (d + ":")[i] == d[i];
    assert (c + ":")[..|c|] == c && (d + ":")[..|d|] == d;
  }

  /** Under this condition no view of a category shares its key with another view. */
  lemma KeysApart(categories: set<string>, names: set<string>, c: string, k: string, d: string, l: string)
    requires Exact(categories, names) && c in categories && d in names
    ensures ItemKey(c, k) == ItemKey(d, l) ==> c == d && k == l
    ensures ItemKey(c, k) != CategoryKey(d) && ItemKey(d, l) != CategoryKey(c)
  {
    if ItemKey(c, k) == ItemKey(d, l) {
      if c != d { ItemKeysCollide(c, d); }
      Unprefix(c, k, d, l);
      assert ((c + ":") + k)[|c| + 1..] == k && ((d + ":") + l)[|d| + 1..] == l;
    }
    ItemMeetsCategory(c, d);
    ItemMeetsCategory(d, c);
  }

  /** Category keys differ from each other and from the key of the whole configuration, and so do
      item keys from the latter, whatever the names. */
  lemma OtherKeysApart(c: string, k: string, d: string)
    ensures CategoryKey(c) == CategoryKey(d) ==> c == d
    ensures ItemKey(c, k) != ALL_ITEMS && CategoryKey(c) != ALL_ITEMS
  {
    if CategoryKey(c) == CategoryKey(d) {
      assert CategoryKey(c)[|PREFIX + "category:"|..] == c && CategoryKey(d)[|PREFIX + "category:"|..] == d;
    }
    CategoryKeyIsItemKey(c);
    NotAllItems(c, k);
    NotAllItems("category", c);
  }

  lemma NotAllItems(c: string, k: string)
    ensures ItemKey(c, k) != ALL_ITEMS
  {
    assert ItemKey(c, k)[|PREFIX| + |c|] == ':';
    assert forall i :: |PREFIX| <= i < |ALL_ITEMS| ==> ALL_ITEMS[i] == "all_items"[i - |PREFIX|];
    assert forall i :: 0 <= i < |"all_items"| ==> "all_items"[i] != ':';
  }

  /******* The views *******/

  function CategoryView(table: Table, c: string): Items {
    map row | row in table && row.0 == c && table[row].isActive :: row.1 := table[row].value
  }

  function Views(table: Table, names: set<string>): map<string, Items> {
    map c | c in names :: CategoryView(table, c)
  }

  lemma ViewsAdd(table: Table, names: set<string>, c: string)
    ensures Views(table, names + {c}) == Views(table, names)[c := CategoryView(table, c)]
  {
  }

  /******* The operations *******/

  datatype Op =
    | Get(category: string, key: string)
    | GetCategory(category: string)
    | GetAll
    | Set(category: string, key: string, value: Value)
    | Create(category: string, key: string, row: Row)
    | Update(category: string, key: string, row: Row)
    | Destroy(category: string, key: string)
    | Rollback(category: string, key: string, oldValue: Value)
    | Evict(keys: set<string>)

  predicate Found(table: Table, c: string, k: string) {
    (c, k) in table && table[(c, k)].isActive
  }

  function Invalidated(s: State, c: string, k: string): map<string, Entry> {
    s.cache - {ItemKey(c, k), CategoryKey(c), ALL_ITEMS}
  }

  /** A row is written and the three entries that may show it are dropped. */
  function Written(s: State, c: string, k: string, row: Row): State {
    s.(table := s.table[(c, k) := row], cache := Invalidated(s, c, k))
  }

  function Apply(s: State, op: Op): State {
    match op
    case Get(c, k) =>
      var key := ItemKey(c, k);
      if Hit(s, key) || !Found(s.table, c, k) then s else s.(cache := s.cache[key := ItemEntry(s.table[(c, k)].value)])
    case GetCategory(c) =>
      if CategoryKey(c) in s.cache || c !in s.categories then s
      else s.(cache := s.cache[CategoryKey(c) := CategoryEntry(CategoryView(s.table, c))])
    case GetAll =>
      if ALL_ITEMS in s.cache then s else s.(cache := s.cache[ALL_ITEMS := AllEntry(Views(s.table, s.categories))])
    case Set(c, k, v) =>
      if !Found(s.table, c, k) then s
      else
        s.(table := s.table[(c, k) := Row(v, true)],
           cache := s.cache[ItemKey(c, k) := ItemEntry(v)] - {CategoryKey(c), ALL_ITEMS})
    case Create(c, k, row) => if (c, k) in s.table || c !in s.categories then s else Written(s, c, k, row)
    case Update(c, k, row) => if Found(s.table, c, k) then Written(s, c, k, row) else s
    case Destroy(c, k) => if Found(s.table, c, k) then Written(s, c, k, s.table[(c, k)].(isActive := false)) else s
    case Rollback(c, k, v) =>
      if Found(s.table, c, k) && v != NullValue then Written(s, c, k, s.table[(c, k)].(value := v)) else s
    case Evict(keys) => s.(cache := s.cache - keys)
  }

  /** A cached null counts as a miss. */
  predicate Hit(s: State, key: string) {
    key in s.cache && s.cache[key] != ItemEntry(NullValue)
  }

  /******* Refinement *******/

  /** `e` is the right entry for every view that is stored under `key`. */
  ghost predicate RightEntry(categories: set<string>, table: Table, names: set<string>, key: string, e: Entry) {
    && (forall c, k :: c in names && ItemKey(c, k) == key ==> Found(table, c, k) && e == ItemEntry(table[(c, k)].value))
    && (forall c :: c in names && CategoryKey(c) == key ==>
          c in categories && e == CategoryEntry(CategoryView(table, c)))
    && (key == ALL_ITEMS ==> e == AllEntry(Views(table, categories)))
  }

  /** Every cached view equals the one recomputed from the active rows. */
  ghost predicate Coherent(s: State, names: set<string>) {
    forall key :: key in s.cache ==> RightEntry(s.categories, s.table, names, key, s.cache[key])
  }

  /** The table holds rows of existing categories only, and those are among the names in use. */
  ghost predicate InUse(s: State, names: set<string>) {
    s.categories <= names && forall row :: row in s.table ==> row.0 in s.categories
  }

  ghost predicate OpNamed(op: Op, names: set<string>) {
    match op
    case GetAll => true
    case Evict(_) => true
    case GetCategory(c) => c in names
    case _ => op.category in names
  }

  lemma ViewsUnchanged(s: State, t: State, c: string, k: string)
    requires t.categories == s.categories && t.table.Keys == s.table.Keys + {(c, k)}
    requires forall row :: row in s.table && row != (c, k) ==> t.table[row] == s.table[row]
    ensures forall d :: d != c ==> CategoryView(t.table, d) == CategoryView(s.table, d)
  {
    forall d | d != c ensures CategoryView(t.table, d) == CategoryView(s.table, d) {
      OtherViewUnchanged(s, t, c, k, d);
    }
  }

  lemma OtherViewUnchanged(s: State, t: State, c: string, k: string, d: string)
    requires t.table.Keys == s.table.Keys + {(c, k)} && d != c
    requires forall row :: row in s.table && row != (c, k) ==> t.table[row] == s.table[row]
    ensures CategoryView(t.table, d) == CategoryView(s.table, d)
  {
  }

  /** Writing a row and dropping its three entries, or replacing the item entry, keeps coherence. */
  lemma WriteCoherent(s: State, t: State, names: set<string>, c: string, k: string)
    requires Exact(s.categories, names) && InUse(s, names) && Coherent(s, names) && c in s.categories
    requires t.categories == s.categories && t.table.Keys == s.table.Keys + {(c, k)}
    requires forall row :: row in s.table && row != (c, k) ==> t.table[row] == s.table[row]
    requires t.cache - {ItemKey(c, k)} == Invalidated(s, c, k)
    requires ItemKey(c, k) in t.cache ==>
      Found(t.table, c, k) && t.cache[ItemKey(c, k)] == ItemEntry(t.table[(c, k)].value)
    ensures Coherent(t, names)
  {
    var rest := Invalidated(s, c, k);
    ViewsUnchanged(s, t, c, k);
    forall key | key in t.cache ensures RightEntry(t.categories, t.table, names, key, t.cache[key]) {
      assert key != ItemKey(c, k) ==> key in rest && rest[key] == (t.cache - {ItemKey(c, k)})[key] == s.cache[key];
      OtherKeysApart(c, k, c);
      forall d, l | d in names && ItemKey(d, l) == key
        ensures Found(t.table, d, l) && t.cache[key] == ItemEntry(t.table[(d, l)].value)
      {
        KeysApart(s.categories, names, c, k, d, l);
      }
      forall d | d in names && CategoryKey(d) == key
        ensures d in t.categories && t.cache[key] == CategoryEntry(CategoryView(t.table, d))
      {
        KeysApart(s.categories, names, c, k, d, k);
      }
    }
  }

  /** Storing an entry keeps the cache right exactly when the entry is what the table calls for at
      that moment, however long ago it was computed. */
  lemma FillCoherent(s: State, names: set<string>, key: string, e: Entry)
    requires Coherent(s, names)
    ensures Coherent(s.(cache := s.cache[key := e]), names) <==> RightEntry(s.categories, s.table, names, key, e)
  {
    var t := s.(cache := s.cache[key := e]);
    assert t.cache[key] == e && forall other :: other in s.cache ==> other in t.cache;
  }

  lemma ItemEntryRight(s: State, names: set<string>, c: string, k: string)
    requires Exact(s.categories, names) && c in s.categories && Found(s.table, c, k)
    ensures RightEntry(s.categories, s.table, names, ItemKey(c, k), ItemEntry(s.table[(c, k)].value))
  {
    forall d, l | d in names ensures ItemKey(d, l) == ItemKey(c, k) ==> d == c && l == k {
      KeysApart(s.categories, names, c, k, d, l);
    }
    forall d | d in names ensures CategoryKey(d) != ItemKey(c, k) { KeysApart(s.categories, names, c, k, d, k); }
    OtherKeysApart(c, k, c);
  }

  lemma CategoryEntryRight(s: State, names: set<string>, c: string)
    requires Exact(s.categories, names) && c in s.categories
    ensures RightEntry(s.categories, s.table, names, CategoryKey(c), CategoryEntry(CategoryView(s.table, c)))
  {
    forall d, l | d in names ensures ItemKey(d, l) != CategoryKey(c) { KeysApart(s.categories, names, c, l, d, l); }
    forall d | d in names ensures CategoryKey(d) == CategoryKey(c) ==> d == c { OtherKeysApart(d, "", c); }
    OtherKeysApart(c, "", c);
  }

  lemma AllEntryRight(s: State, names: set<string>)
    ensures RightEntry(s.categories, s.table, names, ALL_ITEMS, AllEntry(Views(s.table, s.categories)))
  {
    forall d, l ensures ItemKey(d, l) != ALL_ITEMS { OtherKeysApart(d, l, d); }
    forall d ensures CategoryKey(d) != ALL_ITEMS { OtherKeysApart(d, "", d); }
  }

  lemma EvictCoherent(s: State, names: set<string>, keys: set<string>)
    requires Coherent(s, names)
    ensures Coherent(s.(cache := s.cache - keys), names)
  {
  }

  predicate IsRead(op: Op) {
    op.Get? || op.GetCategory? || op.GetAll? || op.Evict?
  }

  lemma ReadCoherent(s: State, names: set<string>, op: Op)
    requires Exact(s.categories, names) && InUse(s, names) && Coherent(s, names) && IsRead(op)
    ensures Coherent(Apply(s, op), names)
  {
    match op
    case Get(c, k) =>
      if Found(s.table, c, k) {
        ItemEntryRight(s, names, c, k);
        FillCoherent(s, names, ItemKey(c, k), ItemEntry(s.table[(c, k)].value));
      }
    case GetCategory(c) =>
      if c in s.categories {
        CategoryEntryRight(s, names, c);
        FillCoherent(s, names, CategoryKey(c), CategoryEntry(CategoryView(s.table, c)));
      }
    case GetAll =>
      AllEntryRight(s, names);
      FillCoherent(s, names, ALL_ITEMS, AllEntry(Views(s.table, s.categories)));
    case Evict(keys) => EvictCoherent(s, names, keys);
  }

  /** The configuration API's writes, which drop all three entries. */
  lemma WrittenCoherent(s: State, names: set<string>, c: string, k: string, row: Row)
    requires Exact(s.categories, names) && InUse(s, names) && Coherent(s, names) && c in s.categories
    ensures Coherent(Written(s, c, k, row), names)
  {
    WriteCoherent(s, Written(s, c, k, row), names, c, k);
  }

  /** The manager's own `set`, which replaces the item's entry. */
  lemma SetCoherent(s: State, names: set<string>, c: string, k: string, v: Value)
    requires Exact(s.categories, names) && InUse(s, names) && Coherent(s, names) && Found(s.table, c, k)
    ensures Coherent(Apply(s, Set(c, k, v)), names)
  {
    var t := Apply(s, Set(c, k, v));
    KeysApart(s.categories, names, c, k, c, k);
    OtherKeysApart(c, k, c);
    assert t.cache - {ItemKey(c, k)} == Invalidated(s, c, k);
    WriteCoherent(s, t, names, c, k);
  }

  lemma StepCoherent(s: State, names: set<string>, op: Op)
    requires Exact(s.categories, names) && InUse(s, names) && Coherent(s, names) && OpNamed(op, names)
    ensures Apply(s, op).categories == s.categories && InUse(Apply(s, op), names)
    ensures Coherent(Apply(s, op), names)
  {
    match op {
      case Set(c, k, v) => if Found(s.table, c, k) { SetCoherent(s, names, c, k, v); }
      case Create(c, k, row) => if c in s.categories { WrittenCoherent(s, names, c, k, row); }
      case Update(c, k, row) => if Found(s.table, c, k) { WrittenCoherent(s, names, c, k, row); }
      case Destroy(c, k) =>
        if Found(s.table, c, k) { WrittenCoherent(s, names, c, k, s.table[(c, k)].(isActive := false)); }
      case Rollback(c, k, v) =>
        if Found(s.table, c, k) { WrittenCoherent(s, names, c, k, s.table[(c, k)].(value := v)); }
      case _ => ReadCoherent(s, names, op);
    }
  }

  ghost function Run(s: State, ops: seq<Op>): State {
    if ops == [] then s else Apply(Run(s, ops[..|ops| - 1]), ops[|ops| - 1])
  }

  /******* Reading what was written *******/

  /** What a lookup of the item answers. */
  function Answer(s: State, c: string, k: string, default: Option<Value>): Option<Value> {
    if Hit(s, ItemKey(c, k)) && s.cache[ItemKey(c, k)].ItemEntry? then Some(s.cache[ItemKey(c, k)].value)
    else if Found(s.table, c, k) then Some(s.table[(c, k)].value)
    else default
  }

  predicate IsWrite(op: Op) {
    op.Set? || op.Create? || op.Update? || op.Destroy? || op.Rollback?
  }

  predicate WritesItem(op: Op, c: string, k: string) {
    IsWrite(op) && op.category == c && op.key == k
  }

  /** A row is there and active, or for a new one the category without the row; and the value is there to restore. */
  predicate IsAccepted(s: State, op: Op)
    requires IsWrite(op)
  {
    var row := (op.category, op.key);
    if op.Create? then row !in s.table && op.category in s.categories
    else row in s.table && s.table[row].isActive && (op.Rollback? ==> op.oldValue != NullValue)
  }

  /** The one row a write changes, and what it leaves there. A refused write and a read change nothing. */
  lemma TableAfter(s: State, op: Op)
    ensures Apply(s, op).categories == s.categories
    ensures !IsWrite(op) || !IsAccepted(s, op) ==> Apply(s, op).table == s.table
    ensures IsWrite(op) && IsAccepted(s, op) ==> Apply(s, op).table == s.table[(op.category, op.key) :=
      match op
      case Set(_, _, value) => Row(value, true)
      case Create(_, _, row) => row
      case Update(_, _, row) => row
      case Destroy(c, k) => Row(s.table[(c, k)].value, false)
      case Rollback(_, _, oldValue) => Row(oldValue, true)]
  {
  }

  lemma {:induction false} RowStays(s: State, ops: seq<Op>, c: string, k: string)
    requires forall op :: op in ops ==> !WritesItem(op, c, k)
    ensures (c, k) in Run(s, ops).table <==> (c, k) in s.table
    ensures (c, k) in s.table ==> Run(s, ops).table[(c, k)] == s.table[(c, k)]
    decreases |ops|
  {
    if ops == [] {
    } else {
      var op, m := ops[|ops| - 1], Run(s, ops[..|ops| - 1]);
      RowStays(s, ops[..|ops| - 1], c, k);
      TableAfter(m, op);
      assert !WritesItem(op, c, k);
      assert IsWrite(op) ==> (op.category, op.key) != (c, k);
    }
  }

  lemma {:induction false} RunKeeps(s: State, names: set<string>, ops: seq<Op>)
    requires Exact(s.categories, names) && InUse(s, names) && Coherent(s, names)
    requires forall op :: op in ops ==> OpNamed(op, names)
    ensures Run(s, ops).categories == s.categories && InUse(Run(s, ops), names)
    ensures Coherent(Run(s, ops), names)
    decreases |ops|
  {
    if ops == [] {
    } else {
      RunKeeps(s, names, ops[..|ops| - 1]);
      StepCoherent(Run(s, ops[..|ops| - 1]), names, ops[|ops| - 1]);
    }
  }

  lemma AnswerIsRow(s: State, names: set<string>, c: string, k: string, default: Option<Value>)
    requires Coherent(s, names) && c in names
    ensures Answer(s, c, k, default) ==
      if (c, k) in s.table && s.table[(c, k)].isActive then Some(s.table[(c, k)].value) else default
  {
    if ItemKey(c, k) in s.cache {
      assert RightEntry(s.categories, s.table, names, ItemKey(c, k), s.cache[ItemKey(c, k)]);
    }
  }

  /** A lookup answers with what the last accepted write of the item stored, whatever was read, evicted or
      written elsewhere since then; after a deletion it answers with the default. */
  lemma ReadsBack(s: State, names: set<string>, write: Op, ops: seq<Op>, default: Option<Value>)
    requires Exact(s.categories, names) && InUse(s, names) && Coherent(s, names)
    requires IsWrite(write) && IsAccepted(s, write) && OpNamed(write, names)
    requires forall op :: op in ops ==> OpNamed(op, names) && !WritesItem(op, write.category, write.key)
    ensures Answer(Run(Apply(s, write), ops), write.category, write.key, default) ==
      match write
      case Set(_, _, value) => Some(value)
      case Create(_, _, row) => if row.isActive then Some(row.value) else default
      case Update(_, _, row) => if row.isActive then Some(row.value) else default
      case Destroy(_, _) => default
      case Rollback(_, _, oldValue) => Some(oldValue)
  {
    StepCoherent(s, names, write);
    TableAfter(s, write);
    RowStays(Apply(s, write), ops, write.category, write.key);
    RunKeeps(Apply(s, write), names, ops);
    AnswerIsRow(Run(Apply(s, write), ops), names, write.category, write.key, default);
  }

  /** Every run from an empty cache, over any table of these categories, keeps the cache right. */
  ghost predicate AlwaysCoherent(categories: set<string>, names: set<string>) {
    forall s: State, ops: seq<Op> ::
      s.categories == categories && InUse(s, names) && s.cache == map[] &&
      (forall op :: op in ops ==> OpNamed(op, names))
      ==> Coherent(Run(s, ops), names)
  }

  /** The cache refines the table: every run of reads, writes and evictions from an empty cache leaves
      each cached view equal to the one recomputed from the active rows, exactly when no two names
      clash in the way `Exact` says. */
  lemma CacheRefinesTable(categories: set<string>, names: set<string>)
    requires categories <= names
    ensures AlwaysCoherent(categories, names) <==> Exact(categories, names)
  {
    if Exact(categories, names) {
      forall s: State, ops: seq<Op> | s.categories == categories && InUse(s, names) && s.cache == map[] &&
        (forall op :: op in ops ==> OpNamed(op, names))
        ensures Coherent(Run(s, ops), names)
      {
        RunKeeps(s, names, ops);
      }
    } else {
      var c, d :| c in categories && d in names &&
        !((c != d ==> Separate(c, d)) && OffCategoryKey(c, d) && OffCategoryKey(d, c));
      var s, op := ClashBreaks(categories, names, c, d);
      var ops := [op];
      assert ops[..0] == [] && Run(s, ops) == Apply(Run(s, ops[..0]), op) == Apply(s, op);
      assert !Coherent(Run(s, ops), names);
    }
  }

  /** Any clash shows after a single read of an empty cache. */
  lemma ClashBreaks(categories: set<string>, names: set<string>, c: string, d: string) returns (s: State, op: Op)
    requires categories <= names && c in categories && d in names
    requires (c != d && !Separate(c, d)) || !OffCategoryKey(c, d) || !OffCategoryKey(d, c)
    ensures s.categories == categories && InUse(s, names) && s.cache == map[] && OpNamed(op, names)
    ensures !Coherent(Apply(s, op), names)
  {
    if c != d && !Separate(c, d) {
      ItemKeysCollide(c, d);
      var k, l :| ItemKey(c, k) == ItemKey(d, l);
      s, op := State(categories, map[(c, k) := Row(Value("1"), true)], map[]), Get(c, k);
      assert ItemKey(d, l) in Apply(s, op).cache && !Found(s.table, d, l);
    } else if !OffCategoryKey(c, d) {
      ItemMeetsCategory(c, d);
      var k :| ItemKey(c, k) == CategoryKey(d);
      s, op := State(categories, map[(c, k) := Row(Value("1"), true)], map[]), Get(c, k);
      assert Apply(s, op).cache[CategoryKey(d)] == ItemEntry(Value("1"));
    } else {
      ItemMeetsCategory(d, c);
      var l :| ItemKey(d, l) == CategoryKey(c);
      s, op := State(categories, map[], map[]), GetCategory(c);
      assert Apply(s, op).cache[ItemKey(d, l)] == CategoryEntry(CategoryView(s.table, c));
    }
  }

  /** A category called `category` clashes with itself. */
  lemma WordCategoryBreaks()
    ensures !AlwaysCoherent({"category"}, {"category"})
  {
    assert "category" + ":" <= "category:" + "category";
    assert !OffCategoryKey("category", "category");
    CacheRefinesTable({"category"}, {"category"});
  }

  /** A read whose table lookup and cache write are apart stays harmless when only reads, evictions and
      expiries happen in between; `FillCoherent` says exactly when it does after writes. */
  lemma {:induction false} LateFill(s: State, names: set<string>, ops: seq<Op>, key: string, e: Entry)
    requires Exact(s.categories, names) && InUse(s, names) && Coherent(s, names)
    requires RightEntry(s.categories, s.table, names, key, e)
    requires forall op :: op in ops ==> IsRead(op) && OpNamed(op, names)
    ensures var t := Run(s, ops); Coherent(t, names) && Coherent(t.(cache := t.cache[key := e]), names)
    decreases |ops|
  {
    ReadsKeepTable(s, names, ops);
    var t := Run(s, ops);
    assert t == s.(cache := t.cache);
    FillCoherent(t, names, key, e);
  }

  lemma {:induction false} ReadsKeepTable(s: State, names: set<string>, ops: seq<Op>)
    requires Exact(s.categories, names) && InUse(s, names) && Coherent(s, names)
    requires forall op :: op in ops ==> IsRead(op)
    ensures Run(s, ops) == s.(cache := Run(s, ops).cache) && Coherent(Run(s, ops), names)
    decreases |ops|
  {
    if ops == [] {
    } else {
      ReadsKeepTable(s, names, ops[..|ops| - 1]);
      ReadCoherent(Run(s, ops[..|ops| - 1]), names, ops[|ops| - 1]);
    }
  }

  /******* Misses in two steps *******/

  datatype View = OneItem(category: string, key: string) | OneCategory(category: string) | Everything

  function KeyOf(v: View): string {
    match v
    case OneItem(c, k) => ItemKey(c, k)
    case OneCategory(c) => CategoryKey(c)
    case Everything => ALL_ITEMS
  }

  /** What the table shows in a view; nothing for a missing row or category. */
  function Current(categories: set<string>, table: Table, v: View): Option<Entry> {
    match v
    case OneItem(c, k) => if Found(table, c, k) then Some(ItemEntry(table[(c, k)].value)) else None
    case OneCategory(c) => if c in categories then Some(CategoryEntry(CategoryView(table, c))) else None
    case Everything => Some(AllEntry(Views(table, categories)))
  }

  predicate Exists(categories: set<string>, v: View) {
    v.Everything? || v.category in categories
  }

  /** Under the exact condition an entry is right for its key when it is the current one of its view. */
  lemma RightIsCurrent(s: State, names: set<string>, v: View, e: Entry)
    requires Exact(s.categories, names) && s.categories <= names && Exists(s.categories, v)
    ensures RightEntry(s.categories, s.table, names, KeyOf(v), e) <==> Current(s.categories, s.table, v) == Some(e)
  {
    match v
    case OneItem(c, k) => if Found(s.table, c, k) { ItemEntryRight(s, names, c, k); }
    case OneCategory(c) => CategoryEntryRight(s, names, c);
    case Everything => AllEntryRight(s, names);
  }

  /** A read that missed: it has looked up the entry and not stored it yet. */
  datatype Fill = Fill(view: View, entry: Entry)

  datatype Shared = Shared(s: State, pending: multiset<Fill>)

  /** Writes and evictions are single steps, a miss is a lookup and a store. A lookup may also find the
      entry cached by now; that does no harm. */
  datatype Event = Lookup(view: View) | Store(fill: Fill) | Do(op: Op)

  ghost predicate Enabled(sh: Shared, names: set<string>, ev: Event) {
    match ev
    case Lookup(v) => Exists(sh.s.categories, v) && Current(sh.s.categories, sh.s.table, v).Some?
    case Store(f) => f in sh.pending
    case Do(op) => OpNamed(op, names) && (!IsRead(op) || op.Evict?)
  }

  function After(sh: Shared, ev: Event): Shared
    requires ev.Lookup? ==> Current(sh.s.categories, sh.s.table, ev.view).Some?
  {
    match ev
    case Lookup(v) => sh.(pending := sh.pending + multiset{Fill(v, Current(sh.s.categories, sh.s.table, v).value)})
    case Store(f) =>
      sh.(s := sh.s.(cache := sh.s.cache[KeyOf(f.view) := f.entry]), pending := sh.pending - multiset{f})
    case Do(op) => sh.(s := Apply(sh.s, op))
  }

  /** What is about to be stored is what the table shows now. */
  ghost predicate UpToDate(s: State, f: Fill) {
    Exists(s.categories, f.view) && Current(s.categories, s.table, f.view) == Some(f.entry)
  }

  /** The names do not clash, and the cached views are right. */
  ghost predicate Sound(sh: Shared, names: set<string>) {
    Exact(sh.s.categories, names) && InUse(sh.s, names) && Coherent(sh.s, names)
  }

  ghost predicate Timely(sh: Shared) {
    forall f :: f in sh.pending ==> UpToDate(sh.s, f)
  }

  predicate Changes(s: State, op: Op, v: View) {
    Current(Apply(s, op).categories, Apply(s, op).table, v) != Current(s.categories, s.table, v)
  }

  /** A write changes the view behind a pending store. */
  ghost predicate Outdates(sh: Shared, ev: Event) {
    ev.Do? && exists f :: f in sh.pending && Changes(sh.s, ev.op, f.view)
  }

  lemma StoreSound(s: State, names: set<string>, f: Fill)
    requires Exact(s.categories, names) && InUse(s, names) && Coherent(s, names) && Exists(s.categories, f.view)
    ensures Coherent(s.(cache := s.cache[KeyOf(f.view) := f.entry]), names) <==> UpToDate(s, f)
  {
    RightIsCurrent(s, names, f.view, f.entry);
    FillCoherent(s, names, KeyOf(f.view), f.entry);
  }

  lemma EventSound(sh: Shared, names: set<string>, ev: Event)
    requires Sound(sh, names) && Timely(sh) && Enabled(sh, names, ev)
    ensures Sound(After(sh, ev), names) && After(sh, ev).s.categories == sh.s.categories
  {
    match ev
    case Lookup(v) =>
    case Store(f) =>
      assert UpToDate(sh.s, f);
      StoreSound(sh.s, names, f);
    case Do(op) => StepCoherent(sh.s, names, op);
  }

  /** Exactly a write behind a pending store makes that store outdated. */
  lemma EventTimely(sh: Shared, names: set<string>, ev: Event)
    requires Sound(sh, names) && Timely(sh) && Enabled(sh, names, ev)
    ensures Timely(After(sh, ev)) <==> !Outdates(sh, ev)
  {
    EventSound(sh, names, ev);
    var t := After(sh, ev);
    forall f | f in t.pending && f in sh.pending
      ensures UpToDate(t.s, f) <==> !(ev.Do? && Changes(sh.s, ev.op, f.view))
    {
      assert UpToDate(sh.s, f);
    }
  }

  /** And exactly that exposes the cache: after such a write, and after no other event, some pending store
      makes a cached view wrong. */
  lemma OutdatingExposes(sh: Shared, names: set<string>, ev: Event)
    requires Sound(sh, names) && Timely(sh) && Enabled(sh, names, ev)
    ensures Outdates(sh, ev) <==>
      exists f :: f in After(sh, ev).pending && !Coherent(After(After(sh, ev), Store(f)).s, names)
  {
    var t := After(sh, ev);
    EventSound(sh, names, ev);
    EventTimely(sh, names, ev);
    forall f | f in t.pending ensures Coherent(After(t, Store(f)).s, names) <==> UpToDate(t.s, f) {
      PendingExists(sh, names, ev, f);
      StoreSound(t.s, names, f);
    }
  }

  lemma PendingExists(sh: Shared, names: set<string>, ev: Event, f: Fill)
    requires Timely(sh) && Enabled(sh, names, ev) && f in After(sh, ev).pending
    requires After(sh, ev).s.categories == sh.s.categories
    ensures Exists(sh.s.categories, f.view)
  {
    if f in sh.pending { assert UpToDate(sh.s, f); }
  }

  ghost predicate Happen(sh: Shared, names: set<string>, events: seq<Event>, t: Shared)
    decreases |events|
  {
    if events == [] then sh == t
    else Enabled(sh, names, events[0]) && Happen(After(sh, events[0]), names, events[1..], t)
  }

  ghost predicate NoneOutdated(sh: Shared, names: set<string>, events: seq<Event>)
    decreases |events|
  {
    events != [] ==>
      && Enabled(sh, names, events[0]) && !Outdates(sh, events[0])
      && NoneOutdated(After(sh, events[0]), names, events[1..])
  }

  /** Over every run of lookups, stores, writes and evictions in which no write changes the view behind a
      pending store, every cached view stays right. */
  lemma {:induction false} SplitMissesCoherent(sh: Shared, names: set<string>, events: seq<Event>, t: Shared)
    requires Sound(sh, names) && Timely(sh) && Happen(sh, names, events, t) && NoneOutdated(sh, names, events)
    ensures Coherent(t.s, names) && Timely(t)
    decreases |events|
  {
    if events == [] {
    } else {
      EventSound(sh, names, events[0]);
      EventTimely(sh, names, events[0]);
      SplitMissesCoherent(After(sh, events[0]), names, events[1..], t);
    }
  }

  /** No choice of names prevents it: for any item, a lookup, a `set` and the late store leave the old
      value in the cache. */
  lemma StaleFill(categories: set<string>, names: set<string>, c: string, k: string)
    returns (start: Shared, events: seq<Event>, t: Shared)
    requires categories <= names && c in categories
    ensures start.s.categories == categories && InUse(start.s, names)
    ensures start.s.cache == map[] && start.pending == multiset{}
    ensures Happen(start, names, events, t) && t.pending == multiset{} && !Coherent(t.s, names)
  {
    var key, before, now := ItemKey(c, k), Value("1"), Value("2");
    var s := State(categories, map[(c, k) := Row(before, true)], map[]);
    var fill := Fill(OneItem(c, k), ItemEntry(before));
    start := Shared(s, multiset{});
    events := [Lookup(OneItem(c, k)), Do(Set(c, k, now)), Store(fill)];
    var looked := After(start, events[0]);
    assert looked == Shared(s, multiset{fill});
    var changed := After(looked, events[1]);
    t := After(changed, events[2]);
    assert t.s.cache[key] == ItemEntry(before) && t.s.table[(c, k)].value == now;
    assert !RightEntry(t.s.categories, t.s.table, names, key, t.s.cache[key]);
    assert Happen(t, names, events[3..], t);
    assert Happen(changed, names, events[2..], t) by { assert events[2..][1..] == events[3..]; }
    assert Happen(looked, names, events[1..], t) by { assert events[1..][1..] == events[2..]; }
  }

  /******* In place *******/

  class ConfigCache {
    const categories: set<string>
    var table: Table
    var cache: map<string, Entry>

    constructor (categories: set<string>)
      ensures this.categories == categories && table == map[] && cache == map[]
    {
      this.categories, table, cache := categories, map[], map[];
    }

    function Value(): State
      reads this
    {
      State(categories, table, cache)
    }

    /** A single item; on a coherent cache the answer is the table's, or the default. */
    method GetItem(category: string, key: string, default: Option<Value>, ghost names: set<string>)
      returns (value: Option<Value>)
      requires Coherent(Value(), names) && category in names
      modifies this
      ensures Value() == Apply(old(Value()), Get(category, key)) && table == old(table)
      ensures value == Answer(old(Value()), category, key, default)
      ensures value == if Found(old(table), category, key) then Some(old(table)[(category, key)].value) else default
    {
      var cacheKey := ItemKey(category, key);
      if cacheKey in cache && cache[cacheKey] != ItemEntry(NullValue) {
        return Some(cache[cacheKey].value);
      }
      if (category, key) in table && table[(category, key)].isActive {
        var v := table[(category, key)].value;
        cache := cache[cacheKey := ItemEntry(v)];
        return Some(v);
      }
      return default;
    }

    method GetCategoryItems(category: string, ghost names: set<string>) returns (items: Items)
      requires Coherent(Value(), names) && category in names
      modifies this
      ensures Value() == Apply(old(Value()), GetCategory(category)) && table == old(table)
      ensures items == if category in categories then CategoryView(old(table), category) else map[]
      ensures forall k :: k in items <==>
        category in categories && (category, k) in table && table[(category, k)].isActive
      ensures forall k :: k in items ==> items[k] == table[(category, k)].value
    {
      var cacheKey := CategoryKey(category);
      if cacheKey in cache {
        return cache[cacheKey].items;
      }
      if category !in categories {
        return map[];
      }
      items := CategoryView(table, category);
      cache := cache[cacheKey := CategoryEntry(items)];
    }

    method GetAllConfigs(ghost names: set<string>) returns (all: map<string, Items>)
      requires Coherent(Value(), names)
      modifies this
      ensures Value() == Apply(old(Value()), GetAll) && all == Views(old(table), categories) && table == old(table)
      ensures all.Keys == categories
      ensures forall c, k :: c in all ==> (k in all[c] <==> (c, k) in table && table[(c, k)].isActive)
      ensures forall c, k :: c in all && k in all[c] ==> all[c][k] == table[(c, k)].value
    {
      if ALL_ITEMS in cache {
        return cache[ALL_ITEMS].all;
      }
      all := CollectViews();
      cache := cache[ALL_ITEMS := AllEntry(all)];
    }

    method CollectViews() returns (all: map<string, Items>)
      ensures all == Views(table, categories)
    {
      all := map[];
      var todo := categories;
      ghost var done: set<string> := {};
      while todo != {}
        invariant todo + done == categories && all == Views(table, done)
        decreases todo
      {
        var c :| c in todo;
        ViewsAdd(table, done, c);
        all := all[c := CategoryView(table, c)];
        todo, done := todo - {c}, done + {c};
      }
    }

    method SetItem(category: string, key: string, value: Value)
      modifies this
      ensures Value() == Apply(old(Value()), Set(category, key, value))
      ensures table == if (category, key) in old(table) && old(table)[(category, key)].isActive
        then old(table)[(category, key) := Row(value, true)] else old(table)
    {
      if (category, key) in table && table[(category, key)].isActive {
        table := table[(category, key) := Row(value, true)];
        cache := cache[ItemKey(category, key) := ItemEntry(value)];
        cache := cache - {CategoryKey(category)};
        cache := cache - {ALL_ITEMS};
      }
    }

    method Invalidate(category: string, key: string)
      modifies this`cache
      ensures cache == Invalidated(old(Value()), category, key)
      ensures forall name :: name in cache <==>
        && name in old(cache) && name != PREFIX + category + ":" + key
        && name != PREFIX + "category:" + category && name != PREFIX + "all_items"
      ensures forall name :: name in cache ==> cache[name] == old(cache)[name]
    {
      cache := cache - {ItemKey(category, key)};
      cache := cache - {CategoryKey(category)};
      cache := cache - {ALL_ITEMS};
    }

    method PerformCreate(category: string, key: string, row: Row) returns (ok: bool)
      modifies this
      ensures ok == ((category, key) !in old(table) && category in categories)
      ensures Value() == Apply(old(Value()), Create(category, key, row))
      ensures table == if ok then old(table)[(category, key) := row] else old(table)
    {
      if (category, key) in table || category !in categories {
        return false;
      }
      table := table[(category, key) := row];
      Invalidate(category, key);
      return true;
    }

    method PerformUpdate(category: string, key: string, row: Row) returns (ok: bool)
      modifies this
      ensures ok == ((category, key) in old(table) && old(table)[(category, key)].isActive)
      ensures Value() == Apply(old(Value()), Update(category, key, row))
      ensures table == if ok then old(table)[(category, key) := row] else old(table)
    {
      if !Found(table, category, key) {
        return false;
      }
      table := table[(category, key) := row];
      Invalidate(category, key);
      return true;
    }

    method PerformDestroy(category: string, key: string) returns (ok: bool)
      modifies this
      ensures ok == ((category, key) in old(table) && old(table)[(category, key)].isActive)
      ensures Value() == Apply(old(Value()), Destroy(category, key))
      ensures table == if ok then old(table)[(category, key) := Row(old(table)[(category, key)].value, false)]
        else old(table)
    {
      if !Found(table, category, key) {
        return false;
      }
      table := table[(category, key) := table[(category, key)].(isActive := false)];
      Invalidate(category, key);
      return true;
    }

    /** Rolling back to the missing old value of a create is refused. */
    method RollBack(category: string, key: string, oldValue: Value) returns (ok: bool)
      modifies this
      ensures ok == ((category, key) in old(table) && old(table)[(category, key)].isActive && oldValue != NullValue)
      ensures Value() == Apply(old(Value()), Rollback(category, key, oldValue))
      ensures table == if ok then old(table)[(category, key) := Row(oldValue, true)] else old(table)
    {
      if !Found(table, category, key) || oldValue == NullValue {
        return false;
      }
      table := table[(category, key) := table[(category, key)].(value := oldValue)];
      Invalidate(category, key);
      return true;
    }
  }
}
