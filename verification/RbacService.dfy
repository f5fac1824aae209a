/** The writers of `RBACService` and `RoleService`, changing the tables in
    place row by row. */
module RbacService {
  import opened Prelude
  import opened Ordering
  import opened Rbac
  import opened RbacTheory

  function IdVisible(ids: seq<int>, tenantId: int): Role -> bool {
    (r: Role) => r.id in ids && (r.tenantId == tenantId || r.tenantId == 0)
  }

  ghost predicate Seen(roles: seq<Role>, id: int, tenantId: int) {
    exists r :: r in roles && VisibleTo(r, id, tenantId)
  }

  ghost predicate AllSeen(roles: seq<Role>, ids: seq<int>, tenantId: int) {
    forall id :: id in ids ==> Seen(roles, id, tenantId)
  }

  ghost predicate UniqueRoleIds(roles: seq<Role>) {
    forall i, j :: 0 <= i < j < |roles| ==> roles[i].id != roles[j].id
  }

  /** The first role decides about its own id; the rest of the roles about the other ids. */
  lemma AllSeenSplit(roles: seq<Role>, ids: seq<int>, tenantId: int)
    requires roles != [] && UniqueRoleIds(roles)
    ensures var r := roles[0];
            AllSeen(roles, ids, tenantId) <==>
              && (r.id in ids ==> VisibleTo(r, r.id, tenantId))
              && AllSeen(roles[1..], Without(ids, r.id), tenantId)
  {
    var r, rest := roles[0], roles[1..];
    WithoutMembers(ids, r.id);
    assert forall x :: x in roles <==> x == r || x in rest;
    assert forall x :: x in rest ==> x.id != r.id;
    forall id | id != r.id ensures Seen(roles, id, tenantId) <==> Seen(rest, id, tenantId) {
      if Seen(roles, id, tenantId) {
        var q :| q in roles && VisibleTo(q, id, tenantId);
        assert q in rest;
      }
    }
    assert Seen(roles, r.id, tenantId) <==> VisibleTo(r, r.id, tenantId);
  }

  /** `set_user_roles` tells unknown ids by comparing two lengths. */
  lemma {:induction false} AllSeenExactlyWhenCountsAgree(roles: seq<Role>, ids: seq<int>, tenantId: int)
    requires Distinct(ids) && UniqueRoleIds(roles)
    ensures |Filter(roles, IdVisible(ids, tenantId))| <= |ids|
    ensures |Filter(roles, IdVisible(ids, tenantId))| == |ids| <==> AllSeen(roles, ids, tenantId)
    decreases |roles|
  {
    if roles == [] {
      assert forall i :: 0 <= i < |ids| ==> ids[i] in ids && !Seen(roles, ids[i], tenantId);
    } else {
      var r, rest := roles[0], roles[1..];
      var ids' := Without(ids, r.id);
      WithoutDistinct(ids, r.id);
      WithoutMembers(ids, r.id);
      assert forall x :: x in rest ==> x.id != r.id;
      FilterSame(rest, IdVisible(ids, tenantId), IdVisible(ids', tenantId));
      AllSeenExactlyWhenCountsAgree(rest, ids', tenantId);
      AllSeenSplit(roles, ids, tenantId);
    }
  }

  class RbacTables {
    var users: seq<User>
    var permissions: seq<Permission>
    var roles: seq<Role>
    var rolePermissions: seq<RolePermission>
    var userRoles: seq<UserRole>
    var nextRoleId: int

    constructor (db: Db)
      ensures State() == db
    {
      users, permissions, roles := db.users, db.permissions, db.roles;
      rolePermissions, userRoles, nextRoleId := db.rolePermissions, db.userRoles, db.nextRoleId;
    }

    function State(): Db
      reads this
    {
      Db(users, permissions, roles, rolePermissions, userRoles, nextRoleId)
    }

    /** The lookup of permissions by name, shared by the three writers that set
        a role's permissions: the rows found, or nothing when a name is missing. */
    method Lookup(names: seq<string>) returns (ok: bool, found: seq<Permission>)
      ensures ok <==> AllNamesExist(State(), names)
      ensures found == FoundPermissions(State(), names)
    {
      found := FoundPermissions(State(), names);
      var foundNames := set p | p in found :: p.name;
      var missing := (set n | n in names) - foundNames;
      ok := missing == {};
      assert forall n :: n in foundNames <==> exists p :: p in permissions && p.name == n && n in names;
      assert forall n :: n in names ==> n in foundNames || n in missing;
    }

    /** The insert loop: one row per permission found. */
    method AddPermissionRows(roleId: int, found: seq<Permission>)
      modifies this`rolePermissions
      ensures rolePermissions == old(rolePermissions) + RowsFor(roleId, found)
    {
      ghost var was := rolePermissions;
      for i := 0 to |found|
        invariant rolePermissions == was + RowsFor(roleId, found[..i])
      {
        rolePermissions := rolePermissions + [RolePermission(roleId, found[i].id)];
        assert RowsFor(roleId, found[..i + 1]) == RowsFor(roleId, found[..i]) + [RolePermission(roleId, found[i].id)];
      }
      assert found[..|found|] == found;
    }

    method CreateRole(tenantId: int, name: string, displayName: string, description: string,
                      isSystem: bool, priority: int) returns (o: Outcome)
      requires Inv(State())
      modifies this
      ensures Inv(State())
      ensures var op := Op.CreateRole(tenantId, name, displayName, description, isSystem, priority);
              o == Reply(old(State()), op) && State() == Step(old(State()), op)
    {
      StepKeepsInv(State(), Op.CreateRole(tenantId, name, displayName, description, isSystem, priority));
      if NameTaken(State(), tenantId, name) { return IntegrityError; }
      roles := roles + [Role(nextRoleId, tenantId, name, if displayName == "" then name else displayName,
                             description, isSystem, priority)];
      nextRoleId := nextRoleId + 1;
      o := Ok;
    }

    /** `update_role`: only the given display name, description and priority change. */
    method UpdateRole(roleId: int, tenantId: int, d: Option<string>, e: Option<string>, p: Option<int>)
      returns (o: Outcome)
      requires Inv(State())
      modifies this
      ensures Inv(State())
      ensures var op := Op.UpdateRole(roleId, tenantId, d, e, p);
              o == Reply(old(State()), op) && State() == Step(old(State()), op)
    {
      StepKeepsInv(State(), Op.UpdateRole(roleId, tenantId, d, e, p));
      if d.None? && e.None? && p.None? { return Validation; }
      if !OwnsRole(State(), roleId, tenantId) { return NotFound; }
      ghost var was := roles;
      if d.Some? { roles := RenamedAll(roles, roleId, d, None, None); }
      if e.Some? { roles := RenamedAll(roles, roleId, None, e, None); }
      if p.Some? { roles := RenamedAll(roles, roleId, None, None, p); }
      assert roles == RenamedAll(was, roleId, d, e, p);
      o := Ok;
    }

    method DeleteRole(roleId: int, tenantId: int) returns (o: Outcome)
      requires Inv(State())
      modifies this
      ensures Inv(State())
      ensures var op := Op.DeleteRole(roleId, tenantId);
              o == Reply(old(State()), op) && State() == Step(old(State()), op)
    {
      StepKeepsInv(State(), Op.DeleteRole(roleId, tenantId));
      if !OwnsRole(State(), roleId, tenantId) { return NotFound; }
      if IsSystemRole(State(), roleId) { return Forbidden; }
      rolePermissions := Filter(rolePermissions, NotOfRole(roleId));
      userRoles := Filter(userRoles, RowNotOfRole(roleId));
      roles := Filter(roles, RoleIsNot(roleId));
      o := Ok;
    }

    /** `RBACService.set_role_permissions`. */
    method SetRolePermissions(roleId: int, names: seq<string>, tenantId: int) returns (o: Outcome)
      requires Inv(State())
      modifies this
      ensures Inv(State())
      ensures var op := Op.SetRolePermissions(roleId, names, tenantId);
              o == Reply(old(State()), op) && State() == Step(old(State()), op)
    {
      StepKeepsInv(State(), Op.SetRolePermissions(roleId, names, tenantId));
      if !OwnsRole(State(), roleId, tenantId) { return NotFound; }
      var unique := FirstOccurrences(names);
      FilterSame(permissions, Named(names), Named(unique));
      var ok, found := Lookup(unique);
      if !ok { return Validation; }
      rolePermissions := Filter(rolePermissions, NotOfRole(roleId));
      AddPermissionRows(roleId, found);
      o := Ok;
    }

    /** `RoleService.update_role_permissions`: sees tenant 0's roles, refuses system roles. */
    method UpdateRolePermissions(roleId: int, tenantId: int, names: seq<string>) returns (o: Outcome)
      requires Inv(State())
      modifies this
      ensures Inv(State())
      ensures var op := Op.UpdateRolePermissions(roleId, tenantId, names);
              o == Reply(old(State()), op) && State() == Step(old(State()), op)
    {
      StepKeepsInv(State(), Op.UpdateRolePermissions(roleId, tenantId, names));
      if !SeesRole(State(), roleId, tenantId) { return NotFound; }
      if IsSystemRole(State(), roleId) { return Forbidden; }
      var unique := FirstOccurrences(names);
      FilterSame(permissions, Named(names), Named(unique));
      var ok, found := Lookup(unique);
      if !ok { return Validation; }
      rolePermissions := Filter(rolePermissions, NotOfRole(roleId));
      AddPermissionRows(roleId, found);
      o := Ok;
    }

    /** `RoleService.create_custom_role`. */
    method CreateCustomRole(tenantId: int, name: string, names: seq<string>) returns (o: Outcome)
      requires Inv(State())
      modifies this
      ensures Inv(State())
      ensures var op := Op.CreateCustomRole(tenantId, name, names);
              o == Reply(old(State()), op) && State() == Step(old(State()), op)
    {
      StepKeepsInv(State(), Op.CreateCustomRole(tenantId, name, names));
      if NameTaken(State(), tenantId, name) { return Conflict; }
      var ok, found := Lookup(names);
      if !ok { return Validation; }
      var roleId := nextRoleId;
      roles := roles + [Role(roleId, tenantId, name, name, "", false, 0)];
      nextRoleId := nextRoleId + 1;
      AddPermissionRows(roleId, found);
      o := Ok;
    }

    /** `assign_role_to_user`, the same in both services. */
    method AssignRoleToUser(userId: int, roleId: int, tenantId: int, grantedBy: int)
      returns (o: Outcome, already: bool)
      requires Inv(State())
      modifies this
      ensures Inv(State())
      ensures var op := Op.AssignRole(userId, roleId, tenantId, grantedBy);
              o == Reply(old(State()), op) && State() == Step(old(State()), op)
      ensures o == Ok ==> (already <==> HasRow(old(State()), userId, roleId, tenantId))
    {
      StepKeepsInv(State(), Op.AssignRole(userId, roleId, tenantId, grantedBy));
      already := false;
      if !HasUser(State(), userId, tenantId) { return NotFound, already; }
      if !SeesRole(State(), roleId, tenantId) { return NotFound, already; }
      if HasRow(State(), userId, roleId, tenantId) { return Ok, true; }
      userRoles := userRoles + [UserRole(userId, roleId, tenantId, grantedBy)];
      o := Ok;
    }

    /** `revoke_role_from_user`: the delete's row count tells whether there was anything to revoke. */
    method RevokeRoleFromUser(userId: int, roleId: int, tenantId: int) returns (o: Outcome)
      requires Inv(State())
      modifies this
      ensures Inv(State())
      ensures var op := Op.RevokeRole(userId, roleId, tenantId);
              o == Reply(old(State()), op) && State() == Step(old(State()), op)
    {
      StepKeepsInv(State(), Op.RevokeRole(userId, roleId, tenantId));
      if !HasUser(State(), userId, tenantId) { return NotFound; }
      var before := |userRoles|;
      FilterShrinks(userRoles, NotRow(userId, roleId, tenantId));
      userRoles := Filter(userRoles, NotRow(userId, roleId, tenantId));
      o := if before - |userRoles| == 0 then NotFound else Ok;
    }

    /** `set_user_roles`. */
    method SetUserRoles(userId: int, roleIds: seq<int>, tenantId: int, grantedBy: int) returns (o: Outcome)
      requires Inv(State())
      modifies this
      ensures Inv(State())
      ensures var op := Op.SetUserRoles(userId, roleIds, tenantId, grantedBy);
              o == Reply(old(State()), op) && State() == Step(old(State()), op)
    {
      StepKeepsInv(State(), Op.SetUserRoles(userId, roleIds, tenantId, grantedBy));
      if !HasUser(State(), userId, tenantId) { return NotFound; }
      var ids := FirstOccurrences(roleIds);
      var found := Filter(roles, IdVisible(ids, tenantId));
      LengthsTellUnknownRoles(State(), roleIds, tenantId);
      if |found| != |ids| { return Validation; }
      userRoles := Filter(userRoles, NotOfUser(userId, tenantId));
      AddGrants(userId, ids, tenantId, grantedBy);
      o := Ok;
    }

    /** The insert loop of `set_user_roles`. */
    method AddGrants(userId: int, ids: seq<int>, tenantId: int, grantedBy: int)
      modifies this`userRoles
      ensures userRoles == old(userRoles) + GrantsFor(userId, ids, tenantId, grantedBy)
    {
      ghost var was := userRoles;
      for i := 0 to |ids|
        invariant userRoles == was + GrantsFor(userId, ids[..i], tenantId, grantedBy)
      {
        userRoles := userRoles + [UserRole(userId, ids[i], tenantId, grantedBy)];
        assert GrantsFor(userId, ids[..i + 1], tenantId, grantedBy)
            == GrantsFor(userId, ids[..i], tenantId, grantedBy) + [UserRole(userId, ids[i], tenantId, grantedBy)];
      }
      assert ids[..|ids|] == ids;
    }
  }

  lemma LengthsTellUnknownRoles(db: Db, roleIds: seq<int>, tenantId: int)
    requires Inv(db)
    ensures var ids := FirstOccurrences(roleIds);
            |Filter(db.roles, IdVisible(ids, tenantId))| != |ids| <==>
            exists id :: id in roleIds && !SeesRole(db, id, tenantId)
  {
    AllSeenExactlyWhenCountsAgree(db.roles, FirstOccurrences(roleIds), tenantId);
    assert forall id :: SeesRole(db, id, tenantId) <==> Seen(db.roles, id, tenantId);
  }

  /** A delete reports zero rows exactly when it leaves the table as it was. */
  lemma {:induction false} FilterShrinks<T(!new)>(s: seq<T>, p: T -> bool)
    ensures |Filter(s, p)| <= |s|
    ensures |Filter(s, p)| == |s| <==> forall x :: x in s ==> p(x)
    ensures |Filter(s, p)| == |s| ==> Filter(s, p) == s
  {
    if s != [] {
      FilterShrinks(s[1..], p);
      if forall x :: x in s[1..] ==> p(x) {
        assert (forall x :: x in s ==> p(x)) <==> p(s[0]);
      }
    }
  }
}
