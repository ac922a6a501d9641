/** The permission cache: filled on read, overwritten by queued refresh tasks, never checked
    against the tables. It stays coherent because every change refreshes enough users.

    A change and the dispatch of its refresh are one step here, and so is each task run. */
module PermissionCache {
  import opened Paths
  import opened Roles

  /******* Changes and the users they refresh *******/

  /** Forward edits of one role or user, saves of one permission or menu row, and saves of one user. */
  datatype Change =
    | SetParents(role: RoleId, newParents: set<RoleId>)
    | SetRolePerms(role: RoleId, newPerms: set<PermId>)
    | SetRoleMenus(role: RoleId, newMenus: set<MenuId>)
    | SaveMenu(menu: MenuId)
    | SavePermission(perm: PermId, row: Permission)
    | SetUserRoles(user: UserId, newRoles: set<RoleId>)
    | SaveUser(user: UserId, isSuperuser: bool)

  function Replace(relation: set<(nat, nat)>, key: nat, values: set<nat>): (r: set<(nat, nat)>)
    ensures forall a, b :: (a, b) in r <==> if a == key then b in values else (a, b) in relation
  {
    (set e | e in relation && e.0 != key) + (set v | v in values :: (key, v))
  }

  function ApplyChange(db: Db, c: Change): Db {
    match c
    case SetParents(role, ps) => db.(parents := Replace(db.parents, role, ps))
    case SetRolePerms(role, ps) => db.(rolePerms := Replace(db.rolePerms, role, ps))
    case SetRoleMenus(role, ms) => db.(roleMenus := Replace(db.roleMenus, role, ms))
    case SaveMenu(_) => db
    case SavePermission(perm, row) => db.(perms := db.perms[perm := row])
    case SetUserRoles(u, rs) => db.(userRoles := Replace(db.userRoles, u, rs))
    case SaveUser(u, isSuperuser) =>
      db.(superusers := if isSuperuser then db.superusers + {u} else db.superusers - {u})
  }

  /** Every change touches one relation, and there the pairs of one key, one row or one user. */
  lemma ChangeMeans(db: Db, c: Change)
    ensures var t := ApplyChange(db, c);
      match c
      case SetParents(role, ps) =>
        t == db.(parents := t.parents) &&
        forall a, b :: (a, b) in t.parents <==> if a == role then b in ps else (a, b) in db.parents
      case SetRolePerms(role, ps) =>
        t == db.(rolePerms := t.rolePerms) &&
        forall a, b :: (a, b) in t.rolePerms <==> if a == role then b in ps else (a, b) in db.rolePerms
      case SetRoleMenus(role, ms) =>
        t == db.(roleMenus := t.roleMenus) &&
        forall a, b :: (a, b) in t.roleMenus <==> if a == role then b in ms else (a, b) in db.roleMenus
      case SaveMenu(_) => t == db
      case SavePermission(perm, row) => t == db.(perms := db.perms[perm := row])
      case SetUserRoles(u, rs) =>
        t == db.(userRoles := t.userRoles) &&
        forall a, b :: (a, b) in t.userRoles <==> if a == u then b in rs else (a, b) in db.userRoles
      case SaveUser(u, isSuperuser) =>
        t == db.(superusers := t.superusers) &&
        forall v :: v in t.superusers <==> if v == u then isSuperuser else v in db.superusers
  {
  }

  /** Whom the signal handlers refresh, computed on the tables after the change. */
  ghost predicate Refreshed(db: Db, c: Change, u: UserId) {
    match c
    case SetParents(role, _) => Inherits(db, u, role)
    case SetRolePerms(role, _) => Inherits(db, u, role)
    case SetRoleMenus(role, _) => Inherits(db, u, role)
    case SaveMenu(menu) => u in db.superusers || Holds(db, db.roleMenus, u, menu)
    case SavePermission(perm, _) => u in db.superusers || Granted(db, u, perm)
    case SetUserRoles(user, _) => u == user
    case SaveUser(user, _) => u == user
  }

  /** The dispatched refresh set, through the handler of each kind of change. */
  method AffectedUsers(db: Db, c: Change) returns (users: set<UserId>)
    ensures forall u :: u in users <==> Refreshed(db, c, u)
  {
    match c
    case SetParents(role, _) => users := OnRoleStructureChange(db, role);
    case SetRolePerms(role, _) => users := OnRoleStructureChange(db, role);
    case SetRoleMenus(role, _) => users := OnRoleStructureChange(db, role);
    case SaveMenu(menu) => users := OnMenuChange(db, menu);
    case SavePermission(perm, _) => users := OnPermissionChange(db, perm);
    case SetUserRoles(user, _) => users := {user};
    case SaveUser(user, _) => users := {user};
  }

  /******* Refresh coverage *******/

  /** A walk that never meets `role` does not notice a change of that role's own edges. */
  lemma {:induction false} WalkAvoiding(E: set<(RoleId, RoleId)>, F: set<(RoleId, RoleId)>, role: RoleId,
                                        k: nat, x: RoleId, a: RoleId)
    requires forall y, z :: y != role ==> ((y, z) in E <==> (y, z) in F)
    requires Walk(E, k, x, a)
    ensures Walk(F, k, x, a) || Reach(F, x, role)
  {
    if k == 0 {
    } else {
      if x == role {
        ReachRefl(F, x);
      } else {
        var c :| (x, c) in E && Walk(E, k - 1, c, a);
        WalkAvoiding(E, F, role, k - 1, c, a);
        ReachEdge(F, x, c);
        if Reach(F, c, role) { ReachTrans(F, x, c, role); }
      }
    }
  }

  /** Changing a role's outgoing edges does not change who reaches it. */
  lemma WhoReachesIsStable(E: set<(RoleId, RoleId)>, F: set<(RoleId, RoleId)>, role: RoleId, x: RoleId)
    requires forall y, z :: y != role ==> ((y, z) in E <==> (y, z) in F)
    ensures Reach(E, x, role) <==> Reach(F, x, role)
    ensures !Reach(F, x, role) ==> forall a: RoleId :: Reach(E, x, a) <==> Reach(F, x, a)
  {
    forall a: RoleId
      ensures Reach(E, x, a) ==> Reach(F, x, a) || Reach(F, x, role)
      ensures Reach(F, x, a) ==> Reach(E, x, a) || Reach(E, x, role)
    {
      if k: nat :| Walk(E, k, x, a) { WalkAvoiding(E, F, role, k, x, a); }
      if k: nat :| Walk(F, k, x, a) { WalkAvoiding(F, E, role, k, x, a); }
    }
  }

  /** Refresh coverage: every user whose permissions a change alters is in the dispatched set. */
  lemma RefreshCovers(db: Db, c: Change, u: UserId)
    requires !Refreshed(ApplyChange(db, c), c, u)
    ensures Perms(ApplyChange(db, c), u) == Perms(db, u)
  {
    var db' := ApplyChange(db, c);
    forall p: PermId | match c case SavePermission(q, _) => p != q case _ => true
      ensures Granted(db', u, p) <==> Granted(db, u, p)
    {
      SameGrants(db, c, u, p);
    }
    forall code ensures code in Perms(db', u) <==> code in Perms(db, u) {
      if code in Perms(db', u) {
        var p :| p in db'.perms && db'.perms[p].isActive && Granted(db', u, p) && db'.perms[p].code == code;
        assert p in db.perms;
      }
      if code in Perms(db, u) {
        var p :| p in db.perms && db.perms[p].isActive && Granted(db, u, p) && db.perms[p].code == code;
        if c.SavePermission? && c.perm == p { assert Granted(db', u, p); }
        assert p in db'.perms;
      }
    }
  }

  lemma SameGrants(db: Db, c: Change, u: UserId, p: PermId)
    requires !Refreshed(ApplyChange(db, c), c, u)
    ensures Granted(ApplyChange(db, c), u, p) <==> Granted(db, u, p)
  {
    var db' := ApplyChange(db, c);
    match c {
      case SetParents(role, _) =>
        forall r: RoleId, a: RoleId | (u, r) in db.userRoles
          ensures Reach(db.parents, r, a) <==> Reach(db'.parents, r, a)
        {
          assert !Reach(db'.parents, r, role);
          WhoReachesIsStable(db.parents, db'.parents, role, r);
        }
      case SetRolePerms(role, _) =>
        forall r: RoleId, a: RoleId | (u, r) in db.userRoles && Reach(db.parents, r, a) ensures a != role {}
      case _ =>
    }
  }

  /******* Chunking *******/

  const CHUNK_SIZE: nat := 500

  function Chunks(ids: seq<UserId>): seq<seq<UserId>>
    decreases |ids|
  {
    if ids == [] then []
    else if |ids| <= CHUNK_SIZE then [ids]
    else [ids[..CHUNK_SIZE]] + Chunks(ids[CHUNK_SIZE..])
  }

  function Flatten(chunks: seq<seq<UserId>>): seq<UserId> {
    if chunks == [] then [] else chunks[0] + Flatten(chunks[1..])
  }

  /** Chunking loses and repeats nobody, and every chunk is non-empty and within the limit. */
  lemma {:induction false} ChunksPartition(ids: seq<UserId>)
    ensures Flatten(Chunks(ids)) == ids
    ensures forall c :: c in Chunks(ids) ==> 0 < |c| <= CHUNK_SIZE
    decreases |ids|
  {
    if ids == [] {
    } else if |ids| <= CHUNK_SIZE {
      assert Chunks(ids)[1..] == [];
    } else {
      var rest := ids[CHUNK_SIZE..];
      ChunksPartition(rest);
      assert Chunks(ids)[1..] == Chunks(rest);
      assert ids[..CHUNK_SIZE] + rest == ids;
    }
  }

  /** Chunk `k` holds the ids from `500 * k` on: 500 of them, or what is left. */
  lemma {:induction false} ChunkAt(ids: seq<UserId>, k: nat)
    ensures k < |Chunks(ids)| <==> 500 * k < |ids|
    ensures 500 * k < |ids| ==>
      Chunks(ids)[k] == ids[500 * k..if 500 * (k + 1) <= |ids| then 500 * (k + 1) else |ids|]
    decreases |ids|
  {
    if 500 < |ids| {
      if k == 0 {
        assert Chunks(ids)[0] == ids[..500];
      } else {
        var rest := ids[500..];
        ChunkAt(rest, k - 1);
        assert Chunks(ids) == [ids[..500]] + Chunks(rest);
      }
    }
  }

  method RefreshBulkCacheTask(ids: seq<UserId>) returns (chunks: seq<seq<UserId>>)
    ensures chunks == Chunks(ids)
  {
    chunks := [];
    var i := 0;
    while i < |ids|
      invariant 0 <= i
      invariant i <= |ids| ==> Chunks(ids) == chunks + Chunks(ids[i..])
      invariant i > |ids| ==> Chunks(ids) == chunks
      decreases |ids| - i
    {
      var end := if i + CHUNK_SIZE <= |ids| then i + CHUNK_SIZE else |ids|;
      ghost var rest := ids[i..];
      if i + CHUNK_SIZE < |ids| {
        assert rest[CHUNK_SIZE..] == ids[i + CHUNK_SIZE..] && rest[..CHUNK_SIZE] == ids[i..end];
        assert Chunks(rest) == [ids[i..end]] + Chunks(ids[i + CHUNK_SIZE..]);
      } else {
        assert rest == ids[i..end] && Chunks(rest) == [rest] && Chunks([]) == [];
      }
      chunks := chunks + [ids[i..end]];
      i := i + CHUNK_SIZE;
      if i == |ids| { assert ids[i..] == [] && chunks + Chunks([]) == chunks; }
    }
    if i == |ids| { assert ids[i..] == []; }
  }

  lemma {:induction false} FlattenHas(chunks: seq<seq<UserId>>, u: UserId)
    ensures u in Flatten(chunks) <==> exists c :: c in chunks && u in c
  {
    if chunks == [] {
    } else {
      FlattenHas(chunks[1..], u);
    }
  }

  /******* The cache *******/

  ghost function FreshEntries(db: Db, ids: seq<UserId>): map<UserId, set<string>> {
    map u | u in ids && u in db.users :: Perms(db, u)
  }

  lemma FreshEntriesMore(before: map<UserId, set<string>>, db: Db, ids: seq<UserId>, u: UserId)
    ensures before + FreshEntries(db, ids + [u]) ==
      if u in db.users then (before + FreshEntries(db, ids))[u := Perms(db, u)] else before + FreshEntries(db, ids)
  {
    var some, more := FreshEntries(db, ids), FreshEntries(db, ids + [u]);
    assert more == if u in db.users then some[u := Perms(db, u)] else some;
  }

  class Cache {
    var entries: map<UserId, set<string>>

    constructor ()
      ensures entries == map[]
    {
      entries := map[];
    }

    /** One refresh task: overwrites the entry of every existing user in the chunk. */
    method RefreshUserCacheChunk(db: Db, ids: seq<UserId>)
      modifies this
      ensures entries == old(entries) + FreshEntries(db, ids)
      ensures forall u :: u in entries <==> u in old(entries) || (u in ids && u in db.users)
      ensures forall u :: u in entries ==>
        entries[u] == if u in ids && u in db.users then Perms(db, u) else old(entries)[u]
    {
      ghost var before := entries;
      for i := 0 to |ids|
        invariant entries == before + FreshEntries(db, ids[..i])
      {
        assert ids[..i + 1] == ids[..i] + [ids[i]];
        FreshEntriesMore(before, db, ids[..i], ids[i]);
        if ids[i] in db.users {
          var perms := CalculateUserPerms(db, ids[i]);
          entries := entries[ids[i] := perms];
        }
      }
      assert ids[..|ids|] == ids;
    }

    /** The permission check's read: a missing entry is computed and stored. */
    method ReadThrough(db: Db, u: UserId) returns (perms: set<string>)
      modifies this
      ensures perms == if u in old(entries) then old(entries)[u] else Perms(db, u)
      ensures entries == old(entries)[u := perms]
    {
      if u in entries {
        return entries[u];
      }
      perms := CalculateUserPerms(db, u);
      entries := entries[u := perms];
    }
  }

  /******* Runs *******/

  /** Permissions that a read or a refresh has computed and not stored yet. */
  datatype Computed = Computed(user: UserId, perms: set<string>)

  datatype CacheState = CacheState(
    db: Db,
    entries: map<UserId, set<string>>,
    bulk: multiset<seq<UserId>>,
    chunks: multiset<seq<UserId>>,
    pending: multiset<Computed>)

  /** `message` lists the users a task still has to refresh, in some order. A read that misses and each
      turn of a refresh task compute in one step and store in another; the task's next turn may compute
      before the last one stores. */
  datatype CacheStep =
    | Mutate(change: Change, message: seq<UserId>)
    | RunBulk(message: seq<UserId>)
    | Refresh(message: seq<UserId>)
    | Read(user: UserId)
    | Store(value: Computed)
    | Expire(user: UserId)

  function WithTurn(pending: multiset<Computed>, db: Db, u: UserId, perms: set<string>): multiset<Computed> {
    if u in db.users then pending + multiset{Computed(u, perms)} else pending
  }

  ghost predicate CacheNext(s: CacheState, step: CacheStep, t: CacheState) {
    match step
    case Mutate(c, message) =>
      var db' := ApplyChange(s.db, c);
      && (forall u :: u in message <==> Refreshed(db', c, u))
      && t == s.(db := db', bulk := if message == [] then s.bulk else s.bulk + multiset{message})
    case RunBulk(message) =>
      && message in s.bulk
      && t == s.(bulk := s.bulk - multiset{message}, chunks := s.chunks + multiset(Chunks(message)))
    case Refresh(message) =>
      && message in s.chunks && message != []
      && t == s.(chunks := Shortened(s.chunks, message),
                 pending := WithTurn(s.pending, s.db, message[0], Perms(s.db, message[0])))
    case Read(u) =>
      && u in s.db.users && u !in s.entries
      && t == s.(pending := WithTurn(s.pending, s.db, u, Perms(s.db, u)))
    case Store(value) =>
      value in s.pending && t == AfterStore(s, value)
    case Expire(u) =>
      t == s.(entries := s.entries - {u})
  }

  function AfterStore(s: CacheState, value: Computed): CacheState {
    s.(pending := s.pending - multiset{value}, entries := s.entries[value.user := value.perms])
  }

  /** The task has one user less to refresh, and ends after the last one. */
  function Shortened(chunks: multiset<seq<UserId>>, message: seq<UserId>): multiset<seq<UserId>>
    requires message != []
  {
    chunks - multiset{message} + if |message| == 1 then multiset{} else multiset{message[1..]}
  }

  ghost predicate Queued(s: CacheState, u: UserId) {
    exists m :: (m in s.bulk || m in s.chunks) && u in m
  }

  /** The user's entry is right, or its refresh is queued, or the right value is about to be stored. */
  ghost predicate EntryCoherent(s: CacheState, u: UserId)
    requires u in s.entries
  {
    u in s.db.users &&
    (s.entries[u] == Perms(s.db, u) || Queued(s, u) || Computed(u, Perms(s.db, u)) in s.pending)
  }

  ghost predicate Coherent(s: CacheState) {
    forall u :: u in s.entries ==> EntryCoherent(s, u)
  }

  /** What is about to be stored is right, or a refresh is still queued behind it. */
  ghost predicate Timely(s: CacheState) {
    forall m :: m in s.pending ==> ValueTimely(s, m)
  }

  ghost predicate ValueTimely(s: CacheState, m: Computed) {
    m.user in s.db.users && (m.perms == Perms(s.db, m.user) || Queued(s, m.user))
  }

  /** The last queued refresh of a user takes its turn while a value computed from older tables still
      waits to be stored. */
  ghost predicate Overtakes(s: CacheState, step: CacheStep, t: CacheState) {
    step.Refresh? && step.message != [] && !Queued(t, step.message[0]) &&
    exists m :: m in s.pending && m.user == step.message[0] && m.perms != Perms(s.db, m.user)
  }

  lemma SlicedStays(s: CacheState, message: seq<UserId>, t: CacheState, u: UserId)
    requires CacheNext(s, RunBulk(message), t) && u in message
    ensures Queued(t, u)
  {
    ChunksPartition(message);
    FlattenHas(Chunks(message), u);
    var c :| c in Chunks(message) && u in c;
    assert c in t.chunks;
  }

  lemma LaterStays(s: CacheState, message: seq<UserId>, t: CacheState, u: UserId)
    requires CacheNext(s, Refresh(message), t) && u in message && u != message[0]
    ensures Queued(t, u)
  {
    assert u in message[1..] && message[1..] in t.chunks;
  }

  /** A queued refresh stays queued, through its bulk task and its chunk, until its turn. */
  lemma QueuedStays(s: CacheState, step: CacheStep, t: CacheState, u: UserId)
    requires CacheNext(s, step, t) && Queued(s, u)
    ensures Queued(t, u) || (step.Refresh? && u == step.message[0])
  {
    if step.RunBulk? && u in step.message {
      SlicedStays(s, step.message, t, u);
    } else if step.Refresh? && u in step.message {
      if u != step.message[0] { LaterStays(s, step.message, t, u); }
    } else {
      var m :| (m in s.bulk || m in s.chunks) && u in m;
      assert m in t.bulk || m in t.chunks;
    }
  }

  /** A value that was right or due for a refresh still is, unless the refresh takes its turn. */
  lemma ValueStays(s: CacheState, step: CacheStep, t: CacheState, u: UserId, perms: set<string>)
    requires CacheNext(s, step, t) && (perms == Perms(s.db, u) || Queued(s, u))
    ensures perms == Perms(t.db, u) || Queued(t, u) || (step.Refresh? && u == step.message[0])
  {
    if Queued(s, u) {
      QueuedStays(s, step, t, u);
    } else if step.Mutate? {
      if u in step.message {
        assert step.message in t.bulk;
      } else {
        RefreshCovers(s.db, step.change, u);
      }
    }
  }

  lemma SameUsers(s: CacheState, step: CacheStep, t: CacheState)
    requires CacheNext(s, step, t)
    ensures t.db.users == s.db.users && (!step.Mutate? ==> t.db == s.db)
  {
  }

  lemma EntryStays(s: CacheState, step: CacheStep, t: CacheState, u: UserId)
    requires Coherent(s) && Timely(s) && CacheNext(s, step, t) && u in t.entries
    ensures EntryCoherent(t, u)
  {
    SameUsers(s, step, t);
    assert u in s.entries ==> EntryCoherent(s, u);
    if step.Store? && step.value.user == u {
      assert ValueTimely(s, step.value);
      ValueStays(s, step, t, u, step.value.perms);
    } else if step.Refresh? && step.message[0] == u {
      assert Computed(u, Perms(s.db, u)) in t.pending;
    } else if Computed(u, Perms(s.db, u)) in s.pending {
      assert Computed(u, Perms(s.db, u)) in t.pending;
      ValueStays(s, step, t, u, Perms(s.db, u));
    } else {
      ValueStays(s, step, t, u, s.entries[u]);
    }
  }

  lemma CoherentStep(s: CacheState, step: CacheStep, t: CacheState)
    requires Coherent(s) && Timely(s) && CacheNext(s, step, t)
    ensures Coherent(t)
  {
    forall u | u in t.entries ensures EntryCoherent(t, u) { EntryStays(s, step, t, u); }
  }

  lemma PendingStays(s: CacheState, step: CacheStep, t: CacheState, m: Computed)
    requires Timely(s) && CacheNext(s, step, t) && m in t.pending && !Overtakes(s, step, t)
    ensures ValueTimely(t, m)
  {
    SameUsers(s, step, t);
    if m in s.pending {
      assert ValueTimely(s, m);
      ValueStays(s, step, t, m.user, m.perms);
    }
  }

  /** Exactly an overtaken value makes a pending store stale. */
  lemma TimelyStep(s: CacheState, step: CacheStep, t: CacheState)
    requires Timely(s) && CacheNext(s, step, t)
    ensures Timely(t) <==> !Overtakes(s, step, t)
  {
    if !Overtakes(s, step, t) {
      forall m | m in t.pending ensures ValueTimely(t, m) { PendingStays(s, step, t, m); }
    } else {
      var m :| m in s.pending && m.user == step.message[0] && m.perms != Perms(s.db, m.user);
      assert m in t.pending && !ValueTimely(t, m);
    }
  }

  /** These pending values are stored one after the other. */
  ghost predicate Stores(s: CacheState, values: seq<Computed>, t: CacheState)
    decreases |values|
  {
    if values == [] then s == t
    else values[0] in s.pending && Stores(AfterStore(s, values[0]), values[1..], t)
  }

  lemma StoreCoherent(s: CacheState, value: Computed)
    requires Coherent(s) && Timely(s) && value in s.pending
    ensures Coherent(AfterStore(s, value)) && Timely(AfterStore(s, value))
  {
    var t := AfterStore(s, value);
    CoherentStep(s, Store(value), t);
    TimelyStep(s, Store(value), t);
  }

  lemma {:induction false} StoresCoherent(s: CacheState, values: seq<Computed>, t: CacheState)
    requires Coherent(s) && Timely(s) && Stores(s, values, t)
    ensures Coherent(t)
    decreases |values|
  {
    if values == [] {
    } else {
      StoreCoherent(s, values[0]);
      StoresCoherent(AfterStore(s, values[0]), values[1..], t);
    }
  }

  ghost predicate Stale(s: CacheState, m: Computed) {
    m in s.pending && m.perms != Perms(s.db, m.user) && !Queued(s, m.user)
  }

  lemma StaleStays(s: CacheState, m: Computed, value: Computed)
    requires Stale(s, m) && value in s.pending && value != m
    ensures Stale(AfterStore(s, value), m)
  {
    var t := AfterStore(s, value);
    assert Queued(t, m.user) ==> Queued(s, m.user);
  }

  lemma StaleStored(s: CacheState, m: Computed)
    requires Stale(s, m) && Computed(m.user, Perms(s.db, m.user)) !in s.pending
    ensures !Coherent(AfterStore(s, m))
  {
    var t := AfterStore(s, m);
    assert Queued(t, m.user) ==> Queued(s, m.user);
    assert m.user in t.entries && !EntryCoherent(t, m.user);
  }

  /** A stale value can be stored after all right ones. */
  lemma {:induction false} StaleLast(s: CacheState, m: Computed) returns (values: seq<Computed>, t: CacheState)
    requires Stale(s, m)
    ensures Stores(s, values, t) && !Coherent(t)
    decreases s.pending[Computed(m.user, Perms(s.db, m.user))]
  {
    var right := Computed(m.user, Perms(s.db, m.user));
    if right in s.pending {
      StaleStays(s, m, right);
      var rest;
      rest, t := StaleLast(AfterStore(s, right), m);
      values := [right] + rest;
      assert values[1..] == rest;
    } else {
      StaleStored(s, m);
      values, t := [m], AfterStore(s, m);
      assert Stores(t, values[1..], t);
    }
  }

  lemma OvertakenIsStale(s: CacheState, step: CacheStep, t: CacheState) returns (m: Computed)
    requires CacheNext(s, step, t) && Overtakes(s, step, t)
    ensures Stale(t, m)
  {
    m :| m in s.pending && m.user == step.message[0] && m.perms != Perms(s.db, m.user);
  }

  /** Storing what is pending, in some order and as far as wanted, leaves a wrong entry with no refresh
      on its way. */
  ghost predicate Exposed(s: CacheState) {
    exists values, r :: Stores(s, values, r) && !Coherent(r)
  }

  lemma {:induction false} TimelyNotExposed(s: CacheState)
    requires Coherent(s) && Timely(s)
    ensures !Exposed(s)
  {
    forall values, r | Stores(s, values, r) ensures Coherent(r) { StoresCoherent(s, values, r); }
  }

  lemma {:induction false} OvertakenExposed(s: CacheState, step: CacheStep, t: CacheState)
    requires CacheNext(s, step, t) && Overtakes(s, step, t)
    ensures Exposed(t)
  {
    var m := OvertakenIsStale(s, step, t);
    var values, r := StaleLast(t, m);
  }

  /** And exactly that exposes the cache: such a step does, and no other. */
  lemma {:induction false} OvertakingExposes(s: CacheState, step: CacheStep, t: CacheState)
    requires Coherent(s) && Timely(s) && CacheNext(s, step, t)
    ensures Overtakes(s, step, t) <==> Exposed(t)
  {
    if Overtakes(s, step, t) {
      OvertakenExposed(s, step, t);
    } else {
      TimelyStep(s, step, t);
      CoherentStep(s, step, t);
      TimelyNotExposed(t);
    }
  }

  ghost predicate CacheRuns(states: seq<CacheState>, steps: seq<CacheStep>) {
    |states| == |steps| + 1 && forall i :: 0 <= i < |steps| ==> CacheNext(states[i], steps[i], states[i + 1])
  }

  ghost predicate Empty(s: CacheState) {
    s.entries == map[] && s.pending == multiset{}
  }

  ghost predicate Idle(s: CacheState) {
    s.bulk == s.chunks == multiset{} && s.pending == multiset{}
  }

  /** Coherence over every run of changes, refreshes, reads and expiries from an empty cache in which no
      value is overtaken; once nothing is queued or pending, every cached entry is exact. */
  lemma {:induction false} CacheCoherence(states: seq<CacheState>, steps: seq<CacheStep>, k: nat)
    requires CacheRuns(states, steps) && Empty(states[0]) && k < |states|
    requires forall i :: 0 <= i < |steps| ==> !Overtakes(states[i], steps[i], states[i + 1])
    ensures Coherent(states[k]) && Timely(states[k])
    ensures Idle(states[k]) ==> forall u :: u in states[k].entries ==> states[k].entries[u] == Perms(states[k].db, u)
  {
    if k == 0 {
    } else {
      CacheCoherence(states, steps, k - 1);
      CoherentStep(states[k - 1], steps[k - 1], states[k]);
      TimelyStep(states[k - 1], steps[k - 1], states[k]);
    }
  }

  /******* An overtaken read *******/

  /** User 1 has role 2, which has permission 3 with code x. */
  const BEFORE: Db := Db({}, {(2, 3)}, {}, map[3 := Permission("x", true)], {(1, 2)}, {1}, {})
  const AFTER: Db := BEFORE.(rolePerms := {})

  lemma OneUserPerms()
    ensures Perms(BEFORE, 1) == {"x"} && Perms(AFTER, 1) == {}
    ensures ApplyChange(BEFORE, SetRolePerms(2, {})) == AFTER
    ensures forall u :: Refreshed(AFTER, SetRolePerms(2, {}), u) <==> u == 1
  {
    ReachRefl(BEFORE.parents, 2);
    assert Granted(BEFORE, 1, 3);
    assert Replace(BEFORE.rolePerms, 2, {}) == {};
    forall r | Reach(AFTER.parents, r, 2) ensures r == 2 {
      var k: nat :| Walk(AFTER.parents, k, r, 2);
    }
    assert (1, 2) in AFTER.userRoles && Inherits(AFTER, 1, 2);
  }

  const OLD_VALUE: Computed := Computed(1, {"x"})
  const NEW_VALUE: Computed := Computed(1, {})
  const COLD: CacheState := CacheState(BEFORE, map[], multiset{}, multiset{}, multiset{})
  const COMPUTED: CacheState := COLD.(pending := multiset{OLD_VALUE})
  const CHANGED: CacheState := COMPUTED.(db := AFTER, bulk := multiset{[1]})
  const SLICED: CacheState := COMPUTED.(db := AFTER, chunks := multiset{[1]})
  const REFRESHING: CacheState := COMPUTED.(db := AFTER, pending := multiset{OLD_VALUE, NEW_VALUE})
  const REFRESHED: CacheState := COMPUTED.(db := AFTER, entries := map[1 := {}])
  const OUTDATED: CacheState := REFRESHED.(entries := map[1 := {"x"}], pending := multiset{})

  lemma ReadThenChange()
    ensures CacheNext(COLD, Read(1), COMPUTED)
    ensures CacheNext(COMPUTED, Mutate(SetRolePerms(2, {}), [1]), CHANGED)
    ensures CacheNext(CHANGED, RunBulk([1]), SLICED)
  {
    OneUserPerms();
    assert Chunks([1]) == [[1]];
  }

  lemma RefreshTurn()
    ensures CacheNext(SLICED, Refresh([1]), REFRESHING)
  {
    OneUserPerms();
    assert multiset{OLD_VALUE} + multiset{NEW_VALUE} == multiset{OLD_VALUE, NEW_VALUE};
  }

  lemma RefreshStores()
    ensures CacheNext(REFRESHING, Store(NEW_VALUE), REFRESHED)
  {
    assert multiset{OLD_VALUE, NEW_VALUE} - multiset{NEW_VALUE} == multiset{OLD_VALUE};
  }

  lemma StoreOutdated()
    ensures CacheNext(REFRESHED, Store(OLD_VALUE), OUTDATED)
    ensures Perms(OUTDATED.db, 1) == {} && !Coherent(OUTDATED)
  {
    OneUserPerms();
    assert 1 in OUTDATED.entries && !EntryCoherent(OUTDATED, 1);
  }

  lemma ExtendRun(states: seq<CacheState>, steps: seq<CacheStep>, step: CacheStep, t: CacheState)
    returns (states': seq<CacheState>, steps': seq<CacheStep>)
    requires CacheRuns(states, steps) && CacheNext(states[|steps|], step, t)
    ensures CacheRuns(states', steps') && states'[0] == states[0] && states'[|steps'|] == t
  {
    states', steps' := states + [t], steps + [step];
  }

  /** A read computes, the role loses its permission, the refresh computes and stores, and then the read
      stores what it computed: the lost permission stays cached and nothing is left to refresh it. */
  lemma OvertakenRead() returns (states: seq<CacheState>, steps: seq<CacheStep>)
    ensures CacheRuns(states, steps) && Empty(states[0])
    ensures var t := states[|steps|]; Idle(t) && t.entries == map[1 := {"x"}] && Perms(t.db, 1) == {} && !Coherent(t)
  {
    ReadThenChange();
    RefreshTurn();
    RefreshStores();
    StoreOutdated();
    states, steps := [COLD], [];
    states, steps := ExtendRun(states, steps, Read(1), COMPUTED);
    states, steps := ExtendRun(states, steps, Mutate(SetRolePerms(2, {}), [1]), CHANGED);
    states, steps := ExtendRun(states, steps, RunBulk([1]), SLICED);
    states, steps := ExtendRun(states, steps, Refresh([1]), REFRESHING);
    states, steps := ExtendRun(states, steps, Store(NEW_VALUE), REFRESHED);
    states, steps := ExtendRun(states, steps, Store(OLD_VALUE), OUTDATED);
  }
}
