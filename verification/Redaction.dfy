/** Hiding secrets in stored query configurations, and putting them back when an edited copy
    returns. The key pattern and the text patterns are parameters. */
module Redaction {

  datatype Json =
    | Null
    | Bool(b: bool)
    | Num(n: int)
    | Str(s: string)
    | Arr(items: seq<Json>)
    | Obj(fields: map<string, Json>)

  const MASK: Json := Str("******")

  /** Which keys are sensitive, and how plain text is redacted. */
  datatype Rules = Rules(sensitive: string -> bool, text: string -> string)

  function Redact(v: Json, rules: Rules): Json {
    match v
    case Obj(fields) => Obj(map k | k in fields :: if rules.sensitive(k) then MASK else Redact(fields[k], rules))
    case Arr(items) => Arr(seq(|items|, i requires 0 <= i < |items| => Redact(items[i], rules)))
    case Str(s) => Str(rules.text(s))
    case _ => v
  }

  function Field(v: Json, k: string): Json {
    if v.Obj? && k in v.fields then v.fields[k] else Null
  }

  function Element(v: Json, i: nat): Json {
    if v.Arr? && i < |v.items| then v.items[i] else Null
  }

  /** Masked values come from the existing configuration, everything else from the incoming one. */
  function Merge(incoming: Json, existing: Json): Json {
    if incoming == MASK then existing
    else match incoming
      case Obj(fields) => Obj(map k | k in fields :: Merge(fields[k], Field(existing, k)))
      case Arr(items) => Arr(seq(|items|, i requires 0 <= i < |items| => Merge(items[i], Element(existing, i))))
      case _ => incoming
  }

  /** Place by place: a mask becomes what the existing configuration holds there, or null. */
  lemma MergeMeans(incoming: Json, existing: Json)
    ensures incoming == Str("******") ==> Merge(incoming, existing) == existing
    ensures match incoming
      case Obj(fields) =>
        var merged := Merge(incoming, existing);
        merged.Obj? && merged.fields.Keys == fields.Keys && forall k :: k in fields ==>
          merged.fields[k] ==
            Merge(fields[k], if existing.Obj? && k in existing.fields then existing.fields[k] else Null)
      case Arr(items) =>
        var merged := Merge(incoming, existing);
        merged.Arr? && |merged.items| == |items| && forall i :: 0 <= i < |items| ==>
          merged.items[i] ==
            Merge(items[i], if existing.Arr? && i < |existing.items| then existing.items[i] else Null)
      case _ => incoming != Str("******") ==> Merge(incoming, existing) == incoming
  {
  }

  /******* Redaction hides *******/

  /** At every depth each sensitive key holds the mask. */
  ghost predicate Masked(v: Json, rules: Rules) {
    match v
    case Obj(fields) =>
      forall k :: k in fields ==> if rules.sensitive(k) then fields[k] == MASK else Masked(fields[k], rules)
    case Arr(items) => forall i :: 0 <= i < |items| ==> Masked(items[i], rules)
    case _ => true
  }

  lemma {:induction false} RedactMasks(v: Json, rules: Rules)
    ensures Masked(Redact(v, rules), rules)
  {
    match v
    case Obj(fields) =>
      forall k | k in fields && !rules.sensitive(k) ensures Masked(Redact(fields[k], rules), rules) {
        RedactMasks(fields[k], rules);
      }
    case Arr(items) =>
      forall i | 0 <= i < |items| ensures Masked(Redact(items[i], rules), rules) { RedactMasks(items[i], rules); }
    case _ =>
  }

  /** `v` and `w` agree except for what sensitive keys hold. */
  ghost predicate AgreeInPublic(v: Json, w: Json, rules: Rules) {
    match v
    case Obj(fields) =>
      w.Obj? && w.fields.Keys == fields.Keys &&
      forall k :: k in fields && !rules.sensitive(k) ==> AgreeInPublic(fields[k], w.fields[k], rules)
    case Arr(items) =>
      w.Arr? && |w.items| == |items| && forall i :: 0 <= i < |items| ==> AgreeInPublic(items[i], w.items[i], rules)
    case _ => v == w
  }

  /** The redacted copy does not depend on any secret. */
  lemma {:induction false} RedactHidesSecrets(v: Json, w: Json, rules: Rules)
    requires AgreeInPublic(v, w, rules)
    ensures Redact(v, rules) == Redact(w, rules)
  {
    match v
    case Obj(fields) =>
      forall k | k in fields && !rules.sensitive(k) ensures Redact(fields[k], rules) == Redact(w.fields[k], rules) {
        RedactHidesSecrets(fields[k], w.fields[k], rules);
      }
    case Arr(items) =>
      forall i | 0 <= i < |items| ensures Redact(items[i], rules) == Redact(w.items[i], rules) {
        RedactHidesSecrets(items[i], w.items[i], rules);
      }
    case _ =>
  }

  /******* The round trip *******/

  /** Text redaction leaves every public string alone, or masks it as a whole. */
  ghost predicate PlainText(v: Json, rules: Rules) {
    match v
    case Obj(fields) => forall k :: k in fields && !rules.sensitive(k) ==> PlainText(fields[k], rules)
    case Arr(items) => forall i :: 0 <= i < |items| ==> PlainText(items[i], rules)
    case Str(s) => rules.text(s) == s || Str(rules.text(s)) == MASK
    case _ => true
  }

  /** What redaction hides in `w` stands in `v` at the same place. */
  ghost predicate Recoverable(w: Json, v: Json, rules: Rules) {
    match w
    case Obj(fields) =>
      forall k :: k in fields ==>
        if rules.sensitive(k) then Field(v, k) == fields[k] else Recoverable(fields[k], Field(v, k), rules)
    case Arr(items) => forall i :: 0 <= i < |items| ==> Recoverable(items[i], Element(v, i), rules)
    case Str(s) => if Str(rules.text(s)) == MASK then v == w else rules.text(s) == s
    case _ => true
  }

  /** Merging the redacted copy of `w` with any `v` gives `w` back exactly in that case. */
  lemma {:induction false} MergeRestores(w: Json, v: Json, rules: Rules)
    ensures Restores(w, v, rules) <==> Recoverable(w, v, rules)
  {
    match w
    case Obj(fields) =>
      forall k | k in fields && !rules.sensitive(k)
        ensures Restores(fields[k], Field(v, k), rules) <==> Recoverable(fields[k], Field(v, k), rules)
      {
        MergeRestores(fields[k], Field(v, k), rules);
      }
      RestoresObject(fields, v, rules);
    case Arr(items) =>
      forall i | 0 <= i < |items|
        ensures Restores(items[i], Element(v, i), rules) <==> Recoverable(items[i], Element(v, i), rules)
      {
        MergeRestores(items[i], Element(v, i), rules);
      }
      RestoresList(items, v, rules);
    case _ =>
  }

  ghost predicate Restores(w: Json, v: Json, rules: Rules) {
    Merge(Redact(w, rules), v) == w
  }

  lemma RestoresObject(fields: map<string, Json>, v: Json, rules: Rules)
    ensures Restores(Obj(fields), v, rules) <==>
      forall k :: k in fields ==>
        if rules.sensitive(k) then Field(v, k) == fields[k] else Restores(fields[k], Field(v, k), rules)
  {
    var r := Redact(Obj(fields), rules).fields;
    var merged := Merge(Obj(r), v).fields;
    assert merged.Keys == fields.Keys;
    forall k | k in fields
      ensures merged[k] == fields[k] <==>
        if rules.sensitive(k) then Field(v, k) == fields[k] else Restores(fields[k], Field(v, k), rules)
    {
      assert merged[k] == Merge(r[k], Field(v, k));
    }
    assert merged == fields <==> forall k :: k in fields ==> merged[k] == fields[k];
  }

  lemma RestoresList(items: seq<Json>, v: Json, rules: Rules)
    ensures Restores(Arr(items), v, rules) <==>
      forall i :: 0 <= i < |items| ==> Restores(items[i], Element(v, i), rules)
  {
    var r := Redact(Arr(items), rules).items;
    var merged := Merge(Arr(r), v).items;
    assert |merged| == |items| && forall i :: 0 <= i < |items| ==> merged[i] == Merge(r[i], Element(v, i));
    assert merged == items <==> forall i :: 0 <= i < |items| ==> merged[i] == items[i];
  }

  lemma {:induction false} RecoverableFromItself(v: Json, rules: Rules)
    ensures Recoverable(v, v, rules) <==> PlainText(v, rules)
  {
    match v
    case Obj(fields) =>
      forall k | k in fields && !rules.sensitive(k)
        ensures Recoverable(fields[k], fields[k], rules) <==> PlainText(fields[k], rules)
      {
        RecoverableFromItself(fields[k], rules);
      }
    case Arr(items) =>
      forall i | 0 <= i < |items| ensures Recoverable(items[i], items[i], rules) <==> PlainText(items[i], rules) {
        RecoverableFromItself(items[i], rules);
      }
    case _ =>
  }

  /** Sending the redacted copy back unedited restores the configuration exactly when text
      redaction did not alter part of a public string. */
  lemma RoundTrip(v: Json, rules: Rules)
    ensures Merge(Redact(v, rules), v) == v <==> PlainText(v, rules)
  {
    MergeRestores(v, v, rules);
    RecoverableFromItself(v, rules);
  }

  /******* Editing before merging *******/

  datatype Step = Key(k: string) | Index(i: nat)

  /** The path leads into `v` and passes no sensitive key. */
  ghost predicate PublicPath(v: Json, path: seq<Step>, rules: Rules)
    decreases |path|
  {
    if path == [] then true
    else match path[0]
      case Key(k) => v.Obj? && k in v.fields && !rules.sensitive(k) && PublicPath(v.fields[k], path[1..], rules)
      case Index(i) => v.Arr? && i < |v.items| && PublicPath(v.items[i], path[1..], rules)
  }

  function At(v: Json, path: seq<Step>): Json
    decreases |path|
  {
    if path == [] then v
    else match path[0]
      case Key(k) => At(Field(v, k), path[1..])
      case Index(i) => At(Element(v, i), path[1..])
  }

  function Put(v: Json, path: seq<Step>, x: Json): Json
    decreases |path|
  {
    if path == [] then x
    else match path[0]
      case Key(k) => if v.Obj? then Obj(v.fields[k := Put(Field(v, k), path[1..], x)]) else v
      case Index(i) => if v.Arr? && i < |v.items| then Arr(v.items[i := Put(v.items[i], path[1..], x)]) else v
  }

  /** What the redacted copy shows in a public place: redacted text, other plain values as they are, and
      lists and objects of the same shape with the sensitive keys masked. */
  lemma {:induction false} RedactAt(v: Json, path: seq<Step>, rules: Rules)
    requires PublicPath(v, path, rules)
    ensures var shown := At(Redact(v, rules), path);
      match At(v, path)
      case Str(s) => shown == Str(rules.text(s))
      case Arr(items) => shown.Arr? && |shown.items| == |items|
      case Obj(fields) =>
        shown.Obj? && shown.fields.Keys == fields.Keys &&
        forall k :: k in fields && rules.sensitive(k) ==> shown.fields[k] == Str("******")
      case plain => shown == plain
    decreases |path|
  {
    if path == [] {
    } else {
      match path[0]
      case Key(k) => RedactAt(v.fields[k], path[1..], rules);
      case Index(i) => RedactAt(v.items[i], path[1..], rules);
    }
  }

  /** The paths part at some point. */
  predicate Part(p: seq<Step>, q: seq<Step>) {
    p != [] && q != [] && (p[0] != q[0] || Part(p[1..], q[1..]))
  }

  /** An edit leaves other places alone. */
  lemma {:induction false} PutElsewhere(v: Json, path: seq<Step>, x: Json, other: seq<Step>)
    requires Part(path, other)
    ensures At(Put(v, path, x), other) == At(v, other)
    decreases |path|
  {
    match path[0]
    case Key(k) => if path[0] == other[0] { PutElsewhere(Field(v, k), path[1..], x, other[1..]); }
    case Index(i) =>
      if path[0] == other[0] && v.Arr? && i < |v.items| { PutElsewhere(v.items[i], path[1..], x, other[1..]); }
  }

  lemma PathsLead(v: Json, w: Json, x: Json, y: Json)
    ensures At(Obj(map["a" := Arr([v, w]), "b" := x]), [Key("a"), Index(1)]) == w
    ensures Put(Obj(map["a" := Arr([v, w]), "b" := x]), [Key("a"), Index(1)], y) ==
      Obj(map["a" := Arr([v, y]), "b" := x])
  {
    var a: map<string, Json> := map["a" := Arr([v, w]), "b" := x];
    var path := [Key("a"), Index(1)];
    assert path[1..] == [Index(1)] && path[1..][1..] == [];
    assert "a"[0] != "b"[0];
    assert Put(Arr([v, w]), path[1..], y) == Arr([v, y]);
    assert a["a" := Arr([v, y])] == map["a" := Arr([v, y]), "b" := x];
  }

  /** Editing the redacted copy in one public place changes that place only, and there the edit is
      merged with the old value: every secret elsewhere comes back. */
  lemma {:induction false} EditOnePlace(v: Json, path: seq<Step>, x: Json, rules: Rules)
    requires PlainText(v, rules) && PublicPath(v, path, rules)
    ensures Merge(Put(Redact(v, rules), path, x), v) == Put(v, path, Merge(x, At(v, path)))
    decreases |path|
  {
    if path == [] {
    } else {
      match path[0]
      case Key(k) =>
        EditOnePlace(v.fields[k], path[1..], x, rules);
        EditField(v, k, Put(Redact(v.fields[k], rules), path[1..], x), rules);
      case Index(i) =>
        EditOnePlace(v.items[i], path[1..], x, rules);
        EditItem(v, i, Put(Redact(v.items[i], rules), path[1..], x), rules);
    }
  }

  lemma EditField(v: Json, k: string, x: Json, rules: Rules)
    requires v.Obj? && k in v.fields && PlainText(v, rules)
    ensures Merge(Obj(Redact(v, rules).fields[k := x]), v) == Obj(v.fields[k := Merge(x, v.fields[k])])
  {
    var r := Redact(v, rules).fields;
    var edited, want := Merge(Obj(r[k := x]), v).fields, v.fields[k := Merge(x, v.fields[k])];
    forall j | j in v.fields && j != k ensures edited[j] == want[j] {
      assert edited[j] == Merge(r[j], v.fields[j]);
      if !rules.sensitive(j) { RoundTrip(v.fields[j], rules); }
    }
    assert edited.Keys == want.Keys;
  }

  lemma EditItem(v: Json, i: nat, x: Json, rules: Rules)
    requires v.Arr? && i < |v.items| && PlainText(v, rules)
    ensures Merge(Arr(Redact(v, rules).items[i := x]), v) == Arr(v.items[i := Merge(x, v.items[i])])
  {
    var r := Redact(v, rules).items;
    var edited, want := Merge(Arr(r[i := x]), v).items, v.items[i := Merge(x, v.items[i])];
    forall j | 0 <= j < |v.items| && j != i ensures edited[j] == want[j] {
      assert edited[j] == Merge(r[j], v.items[j]);
      RoundTrip(v.items[j], rules);
    }
    assert edited == want;
  }

  /** In particular a new plain value other than the mask is stored as it is. */
  lemma EditOneLeaf(v: Json, path: seq<Step>, x: Json, rules: Rules)
    requires PlainText(v, rules) && PublicPath(v, path, rules)
    requires x != MASK && !x.Obj? && !x.Arr?
    ensures Merge(Put(Redact(v, rules), path, x), v) == Put(v, path, x)
  {
    EditOnePlace(v, path, x, rules);
  }

  /******* Deleting a list element *******/

  function Without(items: seq<Json>, j: nat): seq<Json>
    requires j < |items|
  {
    items[..j] + items[j + 1..]
  }

  lemma {:induction false} AtPut(v: Json, path: seq<Step>, x: Json, rules: Rules)
    requires PublicPath(v, path, rules)
    ensures At(Put(v, path, x), path) == x
    decreases |path|
  {
    if path == [] {
    } else {
      match path[0]
      case Key(k) => AtPut(v.fields[k], path[1..], x, rules);
      case Index(i) => AtPut(v.items[i], path[1..], x, rules);
    }
  }

  lemma WithoutRedact(items: seq<Json>, j: nat, rules: Rules)
    requires j < |items|
    ensures Redact(Arr(Without(items, j)), rules) == Arr(Without(Redact(Arr(items), rules).items, j))
  {
    var kept := Without(items, j);
    assert Redact(Arr(kept), rules).items == Without(Redact(Arr(items), rules).items, j);
  }

  /** Element `i + 1`, if there is one, can be recovered from element `i`. */
  ghost predicate NextRecoverable(items: seq<Json>, i: nat, rules: Rules) {
    i + 1 < |items| ==> Recoverable(items[i + 1], items[i], rules)
  }

  lemma KeptRestores(items: seq<Json>, j: nat, i: nat, rules: Rules)
    requires j < |items| && i < |items| - 1 && PlainText(Arr(items), rules)
    ensures Restores(Without(items, j)[i], items[i], rules) <==> i < j || NextRecoverable(items, i, rules)
  {
    MergeRestores(Without(items, j)[i], items[i], rules);
    if i < j { RecoverableFromItself(items[i], rules); }
  }

  lemma DeleteFromList(items: seq<Json>, j: nat, rules: Rules)
    requires j < |items| && PlainText(Arr(items), rules)
    ensures Restores(Arr(Without(items, j)), Arr(items), rules) <==>
      forall i: nat :: j <= i ==> NextRecoverable(items, i, rules)
  {
    var kept := Without(items, j);
    RestoresList(kept, Arr(items), rules);
    forall i: nat | i < |kept|
      ensures Restores(kept[i], Element(Arr(items), i), rules) <==> i < j || NextRecoverable(items, i, rules)
    {
      KeptRestores(items, j, i, rules);
    }
  }

  /** List elements are matched by position. Deleting element `j` of a list in the redacted copy deletes
      just that element exactly when each later element can be recovered from the one before it;
      otherwise secrets move to other elements. */
  lemma DeleteElement(v: Json, path: seq<Step>, j: nat, rules: Rules)
    requires PlainText(v, rules) && PublicPath(v, path, rules)
    requires At(v, path).Arr? && j < |At(v, path).items|
    ensures var items := At(v, path).items;
      var shorter := Arr(Without(Redact(Arr(items), rules).items, j));
      Merge(Put(Redact(v, rules), path, shorter), v) == Put(v, path, Arr(Without(items, j))) <==>
      forall i: nat :: j <= i ==> NextRecoverable(items, i, rules)
  {
    var items := At(v, path).items;
    var shorter := Arr(Without(Redact(Arr(items), rules).items, j));
    EditOnePlace(v, path, shorter, rules);
    AtPut(v, path, Merge(shorter, Arr(items)), rules);
    AtPut(v, path, Arr(Without(items, j)), rules);
    PlainAt(v, path, rules);
    DeleteFromList(items, j, rules);
    WithoutRedact(items, j, rules);
  }

  lemma {:induction false} PlainAt(v: Json, path: seq<Step>, rules: Rules)
    requires PlainText(v, rules) && PublicPath(v, path, rules)
    ensures PlainText(At(v, path), rules)
    decreases |path|
  {
    if path == [] {
    } else {
      match path[0]
      case Key(k) => PlainAt(v.fields[k], path[1..], rules);
      case Index(i) => PlainAt(v.items[i], path[1..], rules);
    }
  }

  function Account(name: string, password: string): Json {
    Obj(map["name" := Str(name), "password" := Str(password)])
  }

  lemma AccountRecovered(name: string, password: string, before: Json, rules: Rules)
    requires rules.sensitive("password") && !rules.sensitive("name") && rules.text(name) == name && Str(name) != MASK
    requires Field(before, "password") == Str(password)
    ensures Merge(Redact(Account(name, "hidden"), rules), before) == Account(name, password)
  {
    var r := Redact(Account(name, "hidden"), rules);
    var merged := Merge(r, before);
    assert "name" != "password" by { assert |"name"| != |"password"|; }
    assert r.fields["name"] == Redact(Str(name), rules) == Str(name) && r.fields["password"] == MASK;
    assert merged.fields["name"] == Merge(Str(name), Field(before, "name"));
    assert merged.fields["password"] == Merge(MASK, Str(password));
    assert merged.fields == Account(name, password).fields;
  }

  /** Deleting the first of two accounts hands its password to the second. */
  lemma DeletedSecretMoves(p: string, q: string, rules: Rules)
    requires rules.sensitive("password") && !rules.sensitive("name")
    requires rules.text("a") == "a" && rules.text("b") == "b"
    ensures var v := Arr([Account("a", p), Account("b", q)]);
      Merge(Arr(Without(Redact(v, rules).items, 0)), v) == Arr([Account("b", p)])
  {
    var v := Arr([Account("a", p), Account("b", q)]);
    var shorter := Without(Redact(v, rules).items, 0);
    assert |"b"| != |"******"|;
    RedactHidesSecrets(Account("b", q), Account("b", "hidden"), rules);
    AccountRecovered("b", p, Account("a", p), rules);
    assert shorter == [Redact(Account("b", q), rules)];
    assert Merge(Arr(shorter), v).items == [Merge(shorter[0], Account("a", p))];
  }
}
