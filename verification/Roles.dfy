/** Role inheritance: roles form an arbitrary, possibly cyclic graph, permissions are collected
    upwards and the roles affected by a change downwards. */
module Roles {
  import opened Paths

  type RoleId = nat
  type PermId = nat
  type MenuId = nat
  type UserId = nat

  datatype Permission = Permission(code: string, isActive: bool)

  /** `parents` holds (role, inherited role) pairs, the other relations likewise. */
  datatype Db = Db(
    parents: set<(RoleId, RoleId)>,
    rolePerms: set<(RoleId, PermId)>,
    roleMenus: set<(RoleId, MenuId)>,
    perms: map<PermId, Permission>,
    userRoles: set<(UserId, RoleId)>,
    users: set<UserId>,
    superusers: set<UserId>)

  /******* Meaning *******/

  /** Some role of the user or one of its ancestors has the item in this field. */
  ghost predicate Holds(db: Db, field: set<(RoleId, nat)>, u: UserId, item: nat) {
    exists r: RoleId, a: RoleId :: (u, r) in db.userRoles && Reach(db.parents, r, a) && (a, item) in field
  }

  ghost predicate Granted(db: Db, u: UserId, p: PermId) {
    Holds(db, db.rolePerms, u, p)
  }

  /** The codes a permission check goes by. */
  ghost function Perms(db: Db, u: UserId): set<string> {
    set p | p in db.perms && db.perms[p].isActive && Granted(db, u, p) :: db.perms[p].code
  }

  /** The user has a role that is `role` or inherits from it. */
  ghost predicate Inherits(db: Db, u: UserId, role: RoleId) {
    exists r :: (u, r) in db.userRoles && Reach(db.parents, r, role)
  }

  /******* The recursive walks *******/

  function Field(field: set<(RoleId, nat)>, roles: set<RoleId>): set<nat> {
    set e | e in field && e.0 in roles :: e.1
  }

  lemma FieldUnion(field: set<(RoleId, nat)>, A: set<RoleId>, B: set<RoleId>)
    ensures Field(field, A + B) == Field(field, A) + Field(field, B)
  {
  }

  function Next(next: set<(RoleId, RoleId)>, r: RoleId): set<RoleId> {
    Field(next, {r})
  }

  lemma NextHas(next: set<(RoleId, RoleId)>, r: RoleId, x: RoleId)
    ensures x in Next(next, r) <==> (r, x) in next
  {
  }

  ghost function Universe(next: set<(RoleId, RoleId)>, start: RoleId): set<RoleId> {
    {start} + (set e | e in next :: e.1)
  }

  /** The accumulators that the recursive calls share. */
  class RoleWalk {
    var seenRoles: set<RoleId>
    var ids: set<nat>

    constructor ()
      ensures seenRoles == {} && ids == {}
    {
      seenRoles, ids := {}, {};
    }

    /** What a walk from `role` may have added: only reachable roles, closed under `next`. */
    twostate predicate Walked(next: set<(RoleId, RoleId)>, role: RoleId)
      reads this
    {
      && old(seenRoles) <= seenRoles
      && (forall a :: a in seenRoles && a !in old(seenRoles) ==> Reach(next, role, a))
      && (forall a, b :: (a, b) in next && a in seenRoles && a !in old(seenRoles) ==> b in seenRoles)
    }

    /** Collects the ids that `role` and everything it leads to have in `field`. */
    method CollectIds(next: set<(RoleId, RoleId)>, field: set<(RoleId, nat)>, role: RoleId, ghost universe: set<RoleId>)
      requires role in universe && seenRoles <= universe && forall a, b :: (a, b) in next ==> b in universe
      modifies this
      ensures Walked(next, role) && role in seenRoles && seenRoles <= universe
      ensures ids == old(ids) + Field(field, seenRoles - old(seenRoles))
      decreases universe - seenRoles
    {
      if role in seenRoles {
        return;
      }
      seenRoles := seenRoles + {role};
      ids := ids + Field(field, {role});
      ReachRefl(next, role);
      var todo := Next(next, role);
      ghost var done: set<RoleId> := {};
      while todo != {}
        invariant todo + done == Next(next, role)
        invariant old(seenRoles) + {role} <= seenRoles <= universe && done <= seenRoles
        invariant forall a :: a in seenRoles && a !in old(seenRoles) ==> Reach(next, role, a)
        invariant forall a, b ::
          (a, b) in next && a in seenRoles && a !in old(seenRoles) && a != role ==> b in seenRoles
        invariant ids == old(ids) + Field(field, seenRoles - old(seenRoles))
        decreases todo
      {
        var parent :| parent in todo;
        NextHas(next, role, parent);
        ghost var seen1, ids1 := seenRoles, ids;
        CollectIds(next, field, parent, universe);
        FieldUnion(field, seen1 - old(seenRoles), seenRoles - seen1);
        assert seenRoles - old(seenRoles) == (seen1 - old(seenRoles)) + (seenRoles - seen1);
        forall a | a in seenRoles && a !in seen1 ensures Reach(next, role, a) {
          ReachEdge(next, role, parent);
          ReachTrans(next, role, parent, a);
        }
        todo, done := todo - {parent}, done + {parent};
      }
      forall b | (role, b) in next ensures b in seenRoles { NextHas(next, role, b); }
    }
  
    /** The same walk, adding each child as it is met. */
    method CollectDescendants(children: set<(RoleId, RoleId)>, role: RoleId, ghost universe: set<RoleId>)
      requires role in universe && seenRoles <= universe && forall a, b :: (a, b) in children ==> b in universe
      modifies this
      ensures Walked(children, role) && role in seenRoles && seenRoles <= universe
      ensures ids == old(ids) + Field(children, seenRoles - old(seenRoles))
      decreases universe - seenRoles
    {
      if role in seenRoles {
        return;
      }
      seenRoles := seenRoles + {role};
      ReachRefl(children, role);
      var todo := Next(children, role);
      ghost var done: set<RoleId> := {};
      while todo != {}
        invariant todo + done == Next(children, role)
        invariant old(seenRoles) + {role} <= seenRoles <= universe && done <= seenRoles
        invariant forall a :: a in seenRoles && a !in old(seenRoles) ==> Reach(children, role, a)
        invariant forall a, b ::
          (a, b) in children && a in seenRoles && a !in old(seenRoles) && a != role ==> b in seenRoles
        invariant ids == old(ids) + done + Field(children, seenRoles - old(seenRoles) - {role})
        decreases todo
      {
        var child :| child in todo;
        NextHas(children, role, child);
        ids := ids + {child};
        ghost var seen1 := seenRoles;
        CollectDescendants(children, child, universe);
        FieldUnion(children, seen1 - old(seenRoles) - {role}, seenRoles - seen1);
        assert seenRoles - old(seenRoles) - {role} == (seen1 - old(seenRoles) - {role}) + (seenRoles - seen1);
        forall a | a in seenRoles && a !in seen1 ensures Reach(children, role, a) {
          ReachEdge(children, role, child);
          ReachTrans(children, role, child, a);
        }
        todo, done := todo - {child}, done + {child};
      }
      forall b | (role, b) in children ensures b in seenRoles { NextHas(children, role, b); }
      FieldUnion(children, {role}, seenRoles - old(seenRoles) - {role});
      assert seenRoles - old(seenRoles) == {role} + (seenRoles - old(seenRoles) - {role});
    }
  }

  lemma InUniverse(next: set<(RoleId, RoleId)>, start: RoleId)
    ensures forall a, b :: (a, b) in next ==> b in Universe(next, start)
  {
  }

  /** A finished walk from scratch has seen exactly the reachable roles. */
  lemma SeenIsReach(next: set<(RoleId, RoleId)>, role: RoleId, seen: set<RoleId>)
    requires role in seen && (forall a :: a in seen ==> Reach(next, role, a))
    requires forall a, b :: (a, b) in next && a in seen ==> b in seen
    ensures forall a: RoleId :: a in seen <==> Reach(next, role, a)
  {
    forall a: RoleId | Reach(next, role, a) ensures a in seen {
      var k: nat :| Walk(next, k, role, a);
      ClosedKeepsWalk(next, seen, k, role, a);
    }
  }

  /** The ids that a role and all its ancestors have in a field. */
  method GetAllIds(db: Db, field: set<(RoleId, nat)>, role: RoleId) returns (ids: set<nat>)
    ensures forall i :: i in ids <==> exists a: RoleId :: Reach(db.parents, role, a) && (a, i) in field
  {
    var walk := new RoleWalk();
    InUniverse(db.parents, role);
    walk.CollectIds(db.parents, field, role, Universe(db.parents, role));
    SeenIsReach(db.parents, role, walk.seenRoles);
    ids := walk.ids;
    forall i ensures i in ids <==> exists a: RoleId :: Reach(db.parents, role, a) && (a, i) in field {
      if a: RoleId :| Reach(db.parents, role, a) && (a, i) in field {
        assert (a, i).1 in Field(field, walk.seenRoles);
      }
    }
  }

  /** All roles that inherit from this one over at least one step; a role on a cycle is its own descendant. */
  method GetAllDescendantRoles(db: Db, role: RoleId) returns (ids: set<RoleId>)
    ensures forall x :: x in ids <==> ReachPlus(db.parents, x, role)
  {
    var children := set e | e in db.parents :: (e.1, e.0);
    assert children == Flip(db.parents);
    var walk := new RoleWalk();
    InUniverse(children, role);
    walk.CollectDescendants(children, role, Universe(children, role));
    SeenIsReach(children, role, walk.seenRoles);
    ids := walk.ids;
    forall x ensures x in ids <==> ReachPlus(db.parents, x, role) {
      FlipDuality(db.parents, x, role);
      if x in ids {
        var e :| e in children && e.0 in walk.seenRoles && e.1 == x;
        ReachEdge(children, e.0, x);
        ReachTrans(children, role, e.0, x);
      }
      if ReachPlus(children, role, x) {
        var k: nat :| 0 < k && Walk(children, k, role, x);
        var c := WalkLast(children, k, role, x);
        assert Reach(children, role, c);
        assert (c, x).1 in Field(children, walk.seenRoles);
      }
    }
  }

  /******* What is computed from the walks *******/

  /** The user's permission codes. */
  method CalculateUserPerms(db: Db, u: UserId) returns (codes: set<string>)
    ensures codes == Perms(db, u)
  {
    codes := {};
    var roles := set e | e in db.userRoles && e.0 == u :: e.1;
    assert forall r :: r in roles <==> (u, r) in db.userRoles by {
      forall r | (u, r) in db.userRoles ensures r in roles { assert (u, r).1 in roles; }
    }
    var todo := roles;
    while todo != {}
      invariant todo <= roles
      invariant forall c :: c in codes <==>
        exists r, p :: r in roles - todo && Grants(db, r, p) && db.perms[p].code == c
      decreases todo
    {
      var role :| role in todo;
      var permIds := GetAllIds(db, db.rolePerms, role);
      var active := set p | p in permIds && p in db.perms && db.perms[p].isActive :: db.perms[p].code;
      forall c ensures c in active <==> exists p :: Grants(db, role, p) && db.perms[p].code == c {
        if p :| Grants(db, role, p) && db.perms[p].code == c { assert p in permIds; }
        if c in active {
          var p :| p in permIds && p in db.perms && db.perms[p].isActive && db.perms[p].code == c;
          assert Grants(db, role, p);
        }
      }
      codes := codes + active;
      todo := todo - {role};
    }
    forall c ensures c in codes <==> c in Perms(db, u) {
      if c in codes {
        var r, p :| r in roles && Grants(db, r, p) && db.perms[p].code == c;
        assert Granted(db, u, p);
      }
      if c in Perms(db, u) {
        var p :| p in db.perms && db.perms[p].isActive && Granted(db, u, p) && db.perms[p].code == c;
        var r: RoleId, a: RoleId :| (u, r) in db.userRoles && Reach(db.parents, r, a) && (a, p) in db.rolePerms;
        assert r in roles && Grants(db, r, p);
      }
    }
  }

  ghost predicate Grants(db: Db, role: RoleId, p: PermId) {
    p in db.perms && db.perms[p].isActive &&
    exists a: RoleId :: Reach(db.parents, role, a) && (a, p) in db.rolePerms
  }

  datatype Policy = NoPolicy | Policy(approverRoles: set<RoleId>)

  /** Who may decide a ticket under a policy: everyone when it names no role, else superusers and whoever
      has one of its roles, by inheritance in any number of steps. */
  ghost predicate Matches(db: Db, u: UserId, policy: Policy) {
    || u in db.superusers || policy == NoPolicy || policy.approverRoles == {}
    || exists q :: q in policy.approverRoles && Inherits(db, u, q)
  }

  method UserMatchesApproverRoles(db: Db, u: UserId, policy: Policy) returns (ok: bool)
    ensures ok <==> Matches(db, u, policy)
  {
    if u in db.superusers || policy == NoPolicy || policy.approverRoles == {} {
      return true;
    }
    var roles := set e | e in db.userRoles && e.0 == u :: e.1;
    assert forall r :: r in roles <==> (u, r) in db.userRoles by {
      forall r | (u, r) in db.userRoles ensures r in roles { assert (u, r).1 in roles; }
    }
    var userRoleIds: set<RoleId> := {};
    var todo := roles;
    while todo != {}
      invariant todo <= roles
      invariant forall q :: q in userRoleIds <==> exists r :: r in roles - todo && Reach(db.parents, r, q)
      decreases todo
    {
      var role :| role in todo;
      var above := GetAllIds(db, db.parents, role);
      forall q ensures q == role || q in above <==> Reach(db.parents, role, q) { ReachFirst(db.parents, role, q); }
      userRoleIds := userRoleIds + {role} + above;
      todo := todo - {role};
    }
    ok := userRoleIds * policy.approverRoles != {};
    if ok {
      var q :| q in userRoleIds * policy.approverRoles;
      assert Inherits(db, u, q);
    }
    forall q | q in policy.approverRoles && Inherits(db, u, q) ensures q in userRoleIds * policy.approverRoles {
      var r: RoleId :| (u, r) in db.userRoles && Reach(db.parents, r, q);
      assert r in roles;
    }
  }

  /** Reaching `q` is being `q` or having a reachable role with `q` as parent. */
  lemma ReachFirst(E: set<(RoleId, RoleId)>, r: RoleId, q: RoleId)
    ensures Reach(E, r, q) <==> q == r || exists a: RoleId :: Reach(E, r, a) && (a, q) in E
  {
    ReachRefl(E, r);
    if k: nat :| 0 < k && Walk(E, k, r, q) {
      var a := WalkLast(E, k, r, q);
      assert Reach(E, r, a);
    }
    if a: RoleId :| Reach(E, r, a) && (a, q) in E {
      ReachEdge(E, a, q);
      ReachTrans(E, r, a, q);
    }
  }

  /******* Whom a change affects *******/

  function UsersWith(db: Db, roles: set<RoleId>): set<UserId> {
    set e | e in db.userRoles && e.1 in roles :: e.0
  }

  lemma UsersWithHas(db: Db, roles: set<RoleId>, u: UserId)
    ensures u in UsersWith(db, roles) <==> exists r :: (u, r) in db.userRoles && r in roles
  {
  }

  /** The role and everything that inherits from it. */
  method WithDescendants(db: Db, role: RoleId) returns (ids: set<RoleId>)
    ensures forall r :: r in ids <==> Reach(db.parents, r, role)
  {
    var descendants := GetAllDescendantRoles(db, role);
    ids := {role} + descendants;
    ReachRefl(db.parents, role);
    forall r | r !in ids ensures !Reach(db.parents, r, role) {
      if k: nat :| Walk(db.parents, k, r, role) { assert k > 0 && ReachPlus(db.parents, r, role); }
    }
  }

  /** Users to refresh after a role's permissions, parents or menus changed. */
  method OnRoleStructureChange(db: Db, role: RoleId) returns (users: set<UserId>)
    ensures forall u :: u in users <==> Inherits(db, u, role)
  {
    var roleIds := WithDescendants(db, role);
    users := UsersWith(db, roleIds);
    forall u ensures u in users <==> Inherits(db, u, role) { UsersWithHas(db, roleIds, u); }
  }

  /** The role has one of `owners` as itself or an ancestor. */
  ghost predicate HeirOf(db: Db, owners: set<RoleId>, x: RoleId) {
    exists r :: r in owners && Reach(db.parents, x, r)
  }

  lemma HeirOfMore(db: Db, owners: set<RoleId>, r: RoleId, x: RoleId)
    ensures HeirOf(db, owners + {r}, x) <==> HeirOf(db, owners, x) || Reach(db.parents, x, r)
  {
  }

  /** The roles that have an item of a field themselves or by inheritance. */
  method RolesHolding(db: Db, field: set<(RoleId, nat)>, item: nat) returns (affectedRoleIds: set<RoleId>)
    ensures forall x :: x in affectedRoleIds <==> exists a: RoleId :: Reach(db.parents, x, a) && (a, item) in field
  {
    var owners := set e | e in field && e.1 == item :: e.0;
    forall r | (r, item) in field ensures r in owners { assert (r, item).0 in owners; }
    affectedRoleIds := {};
    var todo := owners;
    ghost var done: set<RoleId> := {};
    while todo != {}
      invariant todo + done == owners
      invariant forall x :: x in affectedRoleIds <==> HeirOf(db, done, x)
      decreases todo
    {
      var r :| r in todo;
      var heirs := WithDescendants(db, r);
      forall x ensures HeirOf(db, done + {r}, x) <==> HeirOf(db, done, x) || x in heirs { HeirOfMore(db, done, r, x); }
      affectedRoleIds := affectedRoleIds + heirs;
      todo, done := todo - {r}, done + {r};
    }
    assert forall r :: r in done <==> (r, item) in field;
  }

  /** Users to refresh after a permission or menu row changed: all superusers and whoever holds it. */
  method OnItemChange(db: Db, field: set<(RoleId, nat)>, item: nat) returns (users: set<UserId>)
    ensures forall u :: u in users <==> u in db.superusers || Holds(db, field, u, item)
  {
    var roleIds := RolesHolding(db, field, item);
    users := db.superusers + UsersWith(db, roleIds);
    forall u ensures u in users <==> u in db.superusers || Holds(db, field, u, item) { UsersWithHas(db, roleIds, u); }
  }

  method OnPermissionChange(db: Db, perm: PermId) returns (users: set<UserId>)
    ensures forall u :: u in users <==> u in db.superusers || Granted(db, u, perm)
  {
    users := OnItemChange(db, db.rolePerms, perm);
  }

  method OnMenuChange(db: Db, menu: MenuId) returns (users: set<UserId>)
    ensures forall u :: u in users <==> u in db.superusers || Holds(db, db.roleMenus, u, menu)
  {
    users := OnItemChange(db, db.roleMenus, menu);
  }
}
