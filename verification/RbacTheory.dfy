/** What every run of the two RBAC services keeps, and what a tenant can and
    cannot reach. */
module RbacTheory {
  import opened Prelude
  import opened Ordering
  import opened Rbac

  // ---------------------------------------------------------------------------
  // The invariant
  // ---------------------------------------------------------------------------

  lemma FoundExactlyNamed(db: Db, names: seq<string>)
    requires PermissionsUnique(db.permissions)
    ensures PermissionsUnique(FoundPermissions(db, names))
    ensures forall p :: p in FoundPermissions(db, names) <==> p in db.permissions && p.name in names
  {
    var rel := (p: Permission, q: Permission) => p.id != q.id && p.name != q.name;
    FilterPairwise(db.permissions, Named(names), rel);
    assert Pairwise(FoundPermissions(db, names), rel);
  }

  lemma NewRoleKeepsInv(db: Db, r: Role)
    requires Inv(db) && r.id == db.nextRoleId && !NameTaken(db, r.tenantId, r.name)
    ensures Inv(WithRole(db, r))
  {
    var db' := WithRole(db, r);
    assert forall x :: x in db.roles ==> x in db'.roles;
  }

  /** Updating a role's texts and priority keeps every role's identity, name and system flag. */
  lemma RenameKeepsRoles(db: Db, roleId: int, d: Option<string>, e: Option<string>, p: Option<int>, r: Role)
    requires r in db.roles
    ensures exists q :: q in RenamedAll(db.roles, roleId, d, e, p)
                       && q.id == r.id && q.tenantId == r.tenantId && q.name == r.name && q.isSystem == r.isSystem
  {
    var i :| 0 <= i < |db.roles| && db.roles[i] == r;
    assert RenamedAll(db.roles, roleId, d, e, p)[i] in RenamedAll(db.roles, roleId, d, e, p);
  }

  lemma RenameKeepsUnique(db: Db, roleId: int, d: Option<string>, e: Option<string>, p: Option<int>)
    requires RolesUnique(db)
    ensures RolesUnique(db.(roles := RenamedAll(db.roles, roleId, d, e, p)))
  {
    var rs := RenamedAll(db.roles, roleId, d, e, p);
    forall i | 0 <= i < |rs|
      ensures rs[i].id == db.roles[i].id && rs[i].tenantId == db.roles[i].tenantId && rs[i].name == db.roles[i].name
    {
      assert rs[i] == Renamed(db.roles[i], roleId, d, e, p);
    }
    forall r | r in rs ensures r.id < db.nextRoleId {
      var i :| 0 <= i < |rs| && rs[i] == r;
      assert db.roles[i] in db.roles;
    }
  }

  lemma RenameKeepsInv(db: Db, roleId: int, d: Option<string>, e: Option<string>, p: Option<int>)
    requires Inv(db)
    ensures Inv(db.(roles := RenamedAll(db.roles, roleId, d, e, p)))
  {
    var db' := db.(roles := RenamedAll(db.roles, roleId, d, e, p));
    RenameKeepsUnique(db, roleId, d, e, p);
    forall x | x in db.userRoles ensures SeesRole(db', x.roleId, x.tenantId) {
      var r :| r in db.roles && VisibleTo(r, x.roleId, x.tenantId);
      RenameKeepsRoles(db, roleId, d, e, p, r);
    }
    forall x | x in db.rolePermissions ensures exists r :: r in db'.roles && r.id == x.roleId {
      var r :| r in db.roles && r.id == x.roleId;
      RenameKeepsRoles(db, roleId, d, e, p, r);
    }
  }

  lemma FilterRowsUnique(rows: seq<UserRole>, p: UserRole -> bool)
    requires RowsUnique(rows)
    ensures RowsUnique(Filter(rows, p))
  {
    var rel := (x: UserRole, y: UserRole) => !SameRow(y, x.userId, x.roleId, x.tenantId);
    FilterPairwise(rows, p, rel);
    assert Pairwise(Filter(rows, p), rel);
  }

  lemma FilterDistinct<T(!new)>(s: seq<T>, p: T -> bool)
    requires Distinct(s)
    ensures Distinct(Filter(s, p))
  {
    var rel := (x: T, y: T) => x != y;
    FilterPairwise(s, p, rel);
    assert Pairwise(Filter(s, p), rel);
  }

  lemma DeleteKeepsInv(db: Db, roleId: int)
    requires Inv(db)
    ensures Inv(WithoutRole(db, roleId))
  {
    var db' := WithoutRole(db, roleId);
    var rel := (r: Role, q: Role) => r.id != q.id && (r.tenantId != q.tenantId || r.name != q.name);
    FilterPairwise(db.roles, RoleIsNot(roleId), rel);
    assert Pairwise(db'.roles, rel);
    FilterDistinct(db.rolePermissions, NotOfRole(roleId));
    FilterRowsUnique(db.userRoles, RowNotOfRole(roleId));
    forall x | x in db'.userRoles ensures SeesRole(db', x.roleId, x.tenantId) {
      var r :| r in db.roles && VisibleTo(r, x.roleId, x.tenantId);
      assert r in db'.roles;
    }
  }

  lemma AppendRowsDistinct(kept: seq<RolePermission>, roleId: int, ps: seq<Permission>)
    requires Distinct(kept) && PermissionsUnique(ps)
    requires forall x :: x in kept ==> x.roleId != roleId
    ensures Distinct(kept + RowsFor(roleId, ps))
  {
    var rows := kept + RowsFor(roleId, ps);
    forall i, j | 0 <= i < j < |rows| ensures rows[i] != rows[j] {
      if i < |kept| { assert rows[i] in kept; }
    }
  }

  lemma PermissionsKeepInv(db: Db, roleId: int, names: seq<string>)
    requires Inv(db) && exists r :: r in db.roles && r.id == roleId
    ensures Inv(WithPermissions(db, roleId, names))
  {
    var kept := Filter(db.rolePermissions, NotOfRole(roleId));
    var found := FoundPermissions(db, names);
    FilterDistinct(db.rolePermissions, NotOfRole(roleId));
    FoundExactlyNamed(db, names);
    AppendRowsDistinct(kept, roleId, found);
    RowsReferToPermissions(db, roleId, found);
  }

  lemma RowsReferToPermissions(db: Db, roleId: int, ps: seq<Permission>)
    requires forall p :: p in ps ==> p in db.permissions
    ensures forall x :: x in RowsFor(roleId, ps) ==>
              x.roleId == roleId && exists p :: p in db.permissions && p.id == x.permissionId
  {
    forall x | x in RowsFor(roleId, ps)
      ensures x.roleId == roleId && exists p :: p in db.permissions && p.id == x.permissionId
    {
      var i :| 0 <= i < |ps| && RowsFor(roleId, ps)[i] == x;
      assert ps[i] in ps;
    }
  }

  lemma CustomRoleKeepsInv(db: Db, tenantId: int, name: string, names: seq<string>)
    requires Inv(db) && !NameTaken(db, tenantId, name)
    ensures var db' := WithRole(db, NewRole(db, tenantId, name));
            Inv(db'.(rolePermissions := db.rolePermissions + RowsFor(db.nextRoleId, FoundPermissions(db, names))))
  {
    var db' := WithRole(db, NewRole(db, tenantId, name));
    NewRoleKeepsInv(db, NewRole(db, tenantId, name));
    FoundExactlyNamed(db, names);
    AppendRowsDistinct(db.rolePermissions, db.nextRoleId, FoundPermissions(db, names));
    RowsReferToPermissions(db, db.nextRoleId, FoundPermissions(db, names));
    assert NewRole(db, tenantId, name) in db'.roles;
  }

  lemma AssignKeepsInv(db: Db, row: UserRole)
    requires Inv(db) && SeesRole(db, row.roleId, row.tenantId) && !HasRow(db, row.userId, row.roleId, row.tenantId)
    ensures Inv(db.(userRoles := db.userRoles + [row]))
  {
    var rows := db.userRoles + [row];
    forall i, j | 0 <= i < j < |rows| ensures !SameRow(rows[j], rows[i].userId, rows[i].roleId, rows[i].tenantId) {
      if j == |db.userRoles| { assert rows[i] in db.userRoles; }
    }
    assert forall x :: x in rows ==> SeesRole(db, x.roleId, x.tenantId);
  }

  lemma GrantsKeepInv(db: Db, userId: int, ids: seq<int>, tenantId: int, grantedBy: int)
    requires Inv(db) && forall id :: id in ids ==> SeesRole(db, id, tenantId)
    ensures Inv(WithGrants(db, userId, ids, tenantId, grantedBy))
  {
    var kept := Filter(db.userRoles, NotOfUser(userId, tenantId));
    var roleIds := FirstOccurrences(ids);
    var rows := kept + GrantsFor(userId, roleIds, tenantId, grantedBy);
    FilterRowsUnique(db.userRoles, NotOfUser(userId, tenantId));
    forall i, j | 0 <= i < j < |rows| ensures !SameRow(rows[j], rows[i].userId, rows[i].roleId, rows[i].tenantId) {
      if i < |kept| { assert rows[i] in kept; }
    }
    forall x | x in rows ensures SeesRole(db, x.roleId, x.tenantId) {
      var i :| 0 <= i < |rows| && rows[i] == x;
      if i < |kept| { assert x in kept; } else { assert roleIds[i - |kept|] in roleIds; }
    }
  }

  /** Every call of either service keeps the relational invariant; in
      particular no insert of theirs into role_permissions or user_roles can
      ever meet the unique indexes. */
  lemma StepKeepsInv(db: Db, op: Op)
    requires Inv(db)
    ensures Inv(Step(db, op))
  {
    if Reply(db, op) == Ok {
      match op
      case CreateRole(t, name, display, description, isSystem, priority) =>
        NewRoleKeepsInv(db, Role(db.nextRoleId, t, name, if display != "" then display else name,
                                 description, isSystem, priority));
      case UpdateRole(id, _, d, e, p) => RenameKeepsInv(db, id, d, e, p);
      case DeleteRole(id, _) => DeleteKeepsInv(db, id);
      case SetRolePermissions(id, names, t) =>
        var r :| r in db.roles && OwnedBy(r, id, t);
        PermissionsKeepInv(db, id, names);
      case AssignRole(u, id, t, granter) =>
        if !HasRow(db, u, id, t) { AssignKeepsInv(db, UserRole(u, id, t, granter)); }
      case RevokeRole(u, id, t) => FilterRowsUnique(db.userRoles, NotRow(u, id, t));
      case SetUserRoles(u, ids, t, granter) => GrantsKeepInv(db, u, ids, t, granter);
      case CreateCustomRole(t, name, names) => CustomRoleKeepsInv(db, t, name, names);
      case UpdateRolePermissions(id, t, names) =>
        var r :| r in db.roles && VisibleTo(r, id, t);
        PermissionsKeepInv(db, id, names);
    }
  }

  lemma {:induction false} RunKeepsInv(db: Db, ops: seq<Op>)
    requires Inv(db)
    ensures Inv(Run(db, ops))
    decreases |ops|
  {
    if ops != [] {
      StepKeepsInv(db, ops[0]);
      RunKeepsInv(Step(db, ops[0]), ops[1..]);
    }
  }

  // ---------------------------------------------------------------------------
  // Reach of a tenant
  // ---------------------------------------------------------------------------

  /** The permission ids of a role. */
  ghost function PermissionsOf(db: Db, roleId: int): set<int> {
    set x | x in db.rolePermissions && x.roleId == roleId :: x.permissionId
  }

  lemma SameRowsSamePermissions(db: Db, db': Db, roleId: int)
    requires forall x: RolePermission :: x.roleId == roleId ==> (x in db'.rolePermissions <==> x in db.rolePermissions)
    ensures PermissionsOf(db', roleId) == PermissionsOf(db, roleId)
  {
  }

  lemma WithPermissionsElsewhere(db: Db, roleId: int, names: seq<string>, other: int)
    requires other != roleId
    ensures PermissionsOf(WithPermissions(db, roleId, names), other) == PermissionsOf(db, other)
  {
    var added := RowsFor(roleId, FoundPermissions(db, names));
    assert forall x :: x in added ==> x.roleId == roleId;
    SameRowsSamePermissions(db, WithPermissions(db, roleId, names), other);
  }

  lemma WithoutRoleElsewhere(db: Db, roleId: int, other: int)
    requires other != roleId
    ensures PermissionsOf(WithoutRole(db, roleId), other) == PermissionsOf(db, other)
  {
    SameRowsSamePermissions(db, WithoutRole(db, roleId), other);
  }

  lemma NewRowsElsewhere(db: Db, roleId: int, ps: seq<Permission>, other: int)
    requires other != roleId
    ensures PermissionsOf(db.(rolePermissions := db.rolePermissions + RowsFor(roleId, ps)), other) == PermissionsOf(db, other)
  {
    assert forall x :: x in RowsFor(roleId, ps) ==> x.roleId == roleId;
    SameRowsSamePermissions(db, db.(rolePermissions := db.rolePermissions + RowsFor(roleId, ps)), other);
  }

  /** A role a tenant owns is not the role of another tenant. */
  lemma OwnedIsAnother(db: Db, id: int, tenantId: int, r: Role)
    requires RolesUnique(db) && r in db.roles && r.tenantId != tenantId && OwnsRole(db, id, tenantId)
    ensures r.id != id
  {
    var q :| q in db.roles && OwnedBy(q, id, tenantId);
  }

  /** A call leaves the role rows of other tenants alone. */
  lemma OtherTenantsRolesStay(db: Db, op: Op, r: Role)
    requires Inv(db) && r in db.roles && r.tenantId != op.tenantId
    ensures r in Step(db, op).roles
  {
    if Reply(db, op) == Ok {
      match op
      case UpdateRole(id, t, d, e, p) =>
        OwnedIsAnother(db, id, t, r);
        var i :| 0 <= i < |db.roles| && db.roles[i] == r;
        assert RenamedAll(db.roles, id, d, e, p)[i] == r;
      case DeleteRole(id, t) => OwnedIsAnother(db, id, t, r);
      case _ =>
    }
  }

  /** A call leaves the permissions of other tenants' roles alone, with one
      exception: `update_role_permissions` also reaches tenant 0's roles that
      are not system roles. */
  lemma OtherTenantsPermissionsStay(db: Db, op: Op, r: Role)
    requires Inv(db) && r in db.roles && r.tenantId != op.tenantId
    ensures PermissionsOf(Step(db, op), r.id) != PermissionsOf(db, r.id) ==>
              op.UpdateRolePermissions? && op.roleId == r.id && r.tenantId == 0 && !r.isSystem
  {
    if Reply(db, op) == Ok {
      match op
      case DeleteRole(id, t) =>
        OwnedIsAnother(db, id, t, r);
        WithoutRoleElsewhere(db, id, r.id);
      case SetRolePermissions(id, names, t) =>
        OwnedIsAnother(db, id, t, r);
        WithPermissionsElsewhere(db, id, names, r.id);
      case CreateCustomRole(t, name, names) =>
        NewRowsElsewhere(db, db.nextRoleId, FoundPermissions(db, names), r.id);
      case UpdateRolePermissions(id, t, names) =>
        var q :| q in db.roles && VisibleTo(q, id, t);
        if r.id != id { WithPermissionsElsewhere(db, id, names, r.id); }
      case _ =>
    }
  }

  /** The reach of a call: role rows and permission sets of its own tenant, and
      the permissions of tenant 0's non-system roles; nothing else. */
  lemma ReachOfCall(db: Db, op: Op, r: Role)
    requires Inv(db) && r in db.roles && r.tenantId != op.tenantId
    ensures r in Step(db, op).roles
    ensures PermissionsOf(Step(db, op), r.id) != PermissionsOf(db, r.id) ==>
              op.UpdateRolePermissions? && op.roleId == r.id && r.tenantId == 0 && !r.isSystem
  {
    OtherTenantsRolesStay(db, op, r);
    OtherTenantsPermissionsStay(db, op, r);
  }

  /** Over any run of calls from other tenants, a system role of tenant 0 keeps
      its row and its permissions. */
  lemma {:induction false} SystemRolesUntouched(db: Db, ops: seq<Op>, r: Role)
    requires Inv(db) && r in db.roles && r.tenantId == 0 && r.isSystem
    requires forall op :: op in ops ==> op.tenantId != 0
    ensures r in Run(db, ops).roles && PermissionsOf(Run(db, ops), r.id) == PermissionsOf(db, r.id)
    decreases |ops|
  {
    if ops != [] {
      ReachOfCall(db, ops[0], r);
      StepKeepsInv(db, ops[0]);
      SystemRolesUntouched(Step(db, ops[0]), ops[1..], r);
    }
  }

  /** The call by which another tenant changes a shared role's permissions: it
      grants one to a role without any, and takes all from a role with some. */
  lemma SharedRoleCanBeChanged(db: Db, r: Role, tenantId: int) returns (op: Op)
    requires Inv(db) && r in db.roles && r.tenantId == 0 && !r.isSystem && db.permissions != []
    ensures op.tenantId == tenantId && PermissionsOf(Step(db, op), r.id) != PermissionsOf(db, r.id)
  {
    assert VisibleTo(r, r.id, tenantId);
    assert !IsSystemRole(db, r.id);
    if PermissionsOf(db, r.id) == {} {
      var p := db.permissions[0];
      op := UpdateRolePermissions(r.id, tenantId, [p.name]);
      assert p in db.permissions && AllNamesExist(db, [p.name]);
      var found := FoundPermissions(db, [p.name]);
      assert p in found;
      var i :| 0 <= i < |found| && found[i] == p;
      assert RowsFor(r.id, found)[i] in Step(db, op).rolePermissions;
      assert p.id in PermissionsOf(Step(db, op), r.id);
    } else {
      op := UpdateRolePermissions(r.id, tenantId, []);
      FilterNone(db.permissions, Named([]));
      assert RowsFor(r.id, FoundPermissions(db, [])) == [];
      assert PermissionsOf(Step(db, op), r.id) == {};
    }
  }

  /** For tenant 0's roles the protection is the system flag and nothing else:
      a tenant other than 0 has a call that changes the role's permissions
      exactly when the role is not a system role (and any permission exists). */
  lemma SharedRoleOpenExactlyWhenNotSystem(db: Db, r: Role, tenantId: int)
    requires Inv(db) && r in db.roles && r.tenantId == 0 && tenantId != 0
    ensures (exists op: Op :: op.tenantId == tenantId && PermissionsOf(Step(db, op), r.id) != PermissionsOf(db, r.id))
       <==> !r.isSystem && db.permissions != []
  {
    if !r.isSystem && db.permissions != [] {
      var op := SharedRoleCanBeChanged(db, r, tenantId);
    } else {
      forall op: Op | op.tenantId == tenantId
        ensures PermissionsOf(Step(db, op), r.id) == PermissionsOf(db, r.id)
      {
        OtherTenantsPermissionsStay(db, op, r);
        StepKeepsInv(db, op);
        if db.permissions == [] {
          NoPermissionsNoRows(db, r.id);
          NoPermissionsNoRows(Step(db, op), r.id);
        }
      }
    }
  }

  lemma NoPermissionsNoRows(db: Db, roleId: int)
    requires Inv(db) && db.permissions == []
    ensures PermissionsOf(db, roleId) == {}
  {
  }

  /** Of other tenants' user-role rows a call removes exactly those of the role
      it deletes (which can only be a shared role of tenant 0), and adds none. */
  lemma OtherTenantsGrantsUntouched(db: Db, op: Op, x: UserRole)
    requires Inv(db) && x.tenantId != op.tenantId
    ensures x in Step(db, op).userRoles <==>
              x in db.userRoles && !(op.DeleteRole? && Reply(db, op) == Ok && x.roleId == op.roleId)
    ensures x in db.userRoles && x !in Step(db, op).userRoles ==> op.tenantId == 0
  {
    if Reply(db, op) == Ok {
      match op
      case DeleteRole(id, t) =>
        var q :| q in db.roles && OwnedBy(q, id, t);
        assert forall r :: r in db.roles && r.id == id ==> r == q;
        assert x in db.userRoles ==> SeesRole(db, x.roleId, x.tenantId);
      case SetUserRoles(u, ids, t, granter) =>
        assert forall g :: g in GrantsFor(u, FirstOccurrences(ids), t, granter) ==> g.tenantId == t;
      case _ =>
    }
  }

  // ---------------------------------------------------------------------------
  // Queries and round trips
  // ---------------------------------------------------------------------------

  /** The permission names of a role: `list_role_permissions`, `get_role_permissions`. */
  ghost function RoleNames(db: Db, roleId: int): set<string> {
    set p, x | p in db.permissions && x in db.rolePermissions
               && x.permissionId == p.id && x.roleId == roleId :: p.name
  }

  /** The roles of a user in a tenant: `get_user_roles`. */
  ghost function RolesOf(db: Db, userId: int, tenantId: int): set<int> {
    set r, g | r in db.roles && g in db.userRoles && g.roleId == r.id && g.userId == userId && g.tenantId == tenantId :: r.id
  }

  /** The three-table join of `get_user_permissions`. */
  ghost function UserPermissions(db: Db, userId: int, tenantId: int): set<string> {
    set p, x, g | p in db.permissions && x in db.rolePermissions && g in db.userRoles
                  && x.permissionId == p.id && g.roleId == x.roleId
                  && g.userId == userId && g.tenantId == tenantId :: p.name
  }

  /** The join of `has_permission_db`. */
  ghost predicate HasPermissionDb(db: Db, userId: int, name: string, tenantId: int) {
    exists p, x, g :: p in db.permissions && x in db.rolePermissions && g in db.userRoles
                      && x.permissionId == p.id && g.roleId == x.roleId
                      && g.userId == userId && g.tenantId == tenantId && p.name == name
  }

  /** The two joins agree, and both mean: some role of the user carries the permission. */
  lemma JoinsAgree(db: Db, userId: int, tenantId: int, name: string)
    requires Inv(db)
    ensures HasPermissionDb(db, userId, name, tenantId) <==> name in UserPermissions(db, userId, tenantId)
    ensures HasPermissionDb(db, userId, name, tenantId) <==>
              exists id :: id in RolesOf(db, userId, tenantId) && name in RoleNames(db, id)
  {
    if HasPermissionDb(db, userId, name, tenantId) {
      var p, x, g :| p in db.permissions && x in db.rolePermissions && g in db.userRoles
                     && x.permissionId == p.id && g.roleId == x.roleId
                     && g.userId == userId && g.tenantId == tenantId && p.name == name;
      var r :| r in db.roles && VisibleTo(r, g.roleId, tenantId);
      assert r.id in RolesOf(db, userId, tenantId) && name in RoleNames(db, r.id);
    }
  }

  /** A role whose permission rows are those of the named permissions has exactly the names. */
  lemma NamesOfRows(db: Db, db': Db, roleId: int, names: seq<string>)
    requires PermissionsUnique(db.permissions) && db'.permissions == db.permissions
    requires AllNamesExist(db, names)
    requires forall x :: x in db'.rolePermissions && x.roleId == roleId <==>
                         x in RowsFor(roleId, FoundPermissions(db, names))
    ensures forall n :: n in RoleNames(db', roleId) <==> n in names
  {
    var found := FoundPermissions(db, names);
    var rows := RowsFor(roleId, found);
    forall n | n in names ensures n in RoleNames(db', roleId) {
      var p :| p in db.permissions && p.name == n;
      assert p in found;
      var i :| 0 <= i < |found| && found[i] == p;
      assert rows[i] in rows;
    }
    forall n | n in RoleNames(db', roleId) ensures n in names {
      var p, x :| p in db.permissions && x in db'.rolePermissions
                  && x.permissionId == p.id && x.roleId == roleId && p.name == n;
      var i :| 0 <= i < |found| && rows[i] == x;
      assert found[i] in found;
    }
  }

  /** What was set is what is read back, by either service. */
  lemma PermissionsRoundTrip(db: Db, op: Op)
    requires Inv(db) && (op.SetRolePermissions? || op.UpdateRolePermissions?) && Reply(db, op) == Ok
    ensures forall n :: n in RoleNames(Step(db, op), op.roleId) <==> n in op.names
  {
    var rows := RowsFor(op.roleId, FoundPermissions(db, op.names));
    assert forall x :: x in rows ==> x.roleId == op.roleId;
    NamesOfRows(db, WithPermissions(db, op.roleId, op.names), op.roleId, op.names);
  }

  lemma CustomRoleRoundTrip(db: Db, op: Op)
    requires Inv(db) && op.CreateCustomRole? && Reply(db, op) == Ok
    ensures forall n :: n in RoleNames(Step(db, op), db.nextRoleId) <==> n in op.names
  {
    var rows := RowsFor(db.nextRoleId, FoundPermissions(db, op.names));
    assert forall x :: x in rows ==> x.roleId == db.nextRoleId;
    assert forall x :: x in db.rolePermissions ==> x.roleId != db.nextRoleId;
    NamesOfRows(db, Step(db, op), db.nextRoleId, op.names);
  }

  /** After `set_user_roles` the user has exactly the given roles. */
  lemma RolesSetAreRolesRead(db: Db, op: Op)
    requires Inv(db) && op.SetUserRoles? && Reply(db, op) == Ok
    ensures forall id :: id in RolesOf(Step(db, op), op.userId, op.tenantId) <==> id in op.roleIds
  {
    var db' := Step(db, op);
    var ids := FirstOccurrences(op.roleIds);
    var grants := GrantsFor(op.userId, ids, op.tenantId, op.grantedBy);
    forall id | id in op.roleIds ensures id in RolesOf(db', op.userId, op.tenantId) {
      var i :| 0 <= i < |ids| && ids[i] == id;
      assert grants[i] in db'.userRoles;
      var r :| r in db.roles && VisibleTo(r, id, op.tenantId);
    }
    forall id | id in RolesOf(db', op.userId, op.tenantId) ensures id in op.roleIds {
      var r, g :| r in db'.roles && g in db'.userRoles && g.roleId == r.id
                  && g.userId == op.userId && g.tenantId == op.tenantId && r.id == id;
      assert g in grants;
      var i :| 0 <= i < |grants| && grants[i] == g;
      assert ids[i] in ids;
    }
  }

  /** ... and so exactly the permissions those roles carry. */
  lemma UserRolesRoundTrip(db: Db, op: Op, name: string)
    requires Inv(db) && op.SetUserRoles? && Reply(db, op) == Ok
    ensures var db' := Step(db, op);
            && (forall id :: id in RolesOf(db', op.userId, op.tenantId) <==> id in op.roleIds)
            && (HasPermissionDb(db', op.userId, name, op.tenantId) <==>
                  exists id :: id in op.roleIds && name in RoleNames(db, id))
  {
    var db' := Step(db, op);
    StepKeepsInv(db, op);
    RolesSetAreRolesRead(db, op);
    JoinsAgree(db', op.userId, op.tenantId, name);
    GrantsKeepRoleNames(db, op);
  }

  lemma GrantsKeepRoleNames(db: Db, op: Op)
    requires op.SetUserRoles?
    ensures forall id :: RoleNames(Step(db, op), id) == RoleNames(db, id)
  {
  }

  lemma LastRowDropped(rows: seq<UserRole>, row: UserRole)
    requires forall x :: x in rows ==> !SameRow(x, row.userId, row.roleId, row.tenantId)
    ensures Filter(rows + [row], NotRow(row.userId, row.roleId, row.tenantId)) == rows
  {
    var others := NotRow(row.userId, row.roleId, row.tenantId);
    FilterAppend(rows, row, others);
    FilterAll(rows, others);
  }

  lemma RevokeDropsOnlyRow(db: Db, row: UserRole)
    requires HasUser(db, row.userId, row.tenantId) && !HasRow(db, row.userId, row.roleId, row.tenantId)
    ensures var db' := db.(userRoles := db.userRoles + [row]);
            && Reply(db', RevokeRole(row.userId, row.roleId, row.tenantId)) == Ok
            && Step(db', RevokeRole(row.userId, row.roleId, row.tenantId)) == db
  {
    var rows := db.userRoles + [row];
    assert rows[|rows| - 1] in rows && SameRow(row, row.userId, row.roleId, row.tenantId);
    LastRowDropped(db.userRoles, row);
  }

  /** Revoking a role just assigned gives back the database as it was. */
  lemma RevokeUndoesAssign(db: Db, userId: int, roleId: int, tenantId: int, grantedBy: int)
    requires Inv(db)
    requires Reply(db, AssignRole(userId, roleId, tenantId, grantedBy)) == Ok && !HasRow(db, userId, roleId, tenantId)
    ensures var db' := Step(db, AssignRole(userId, roleId, tenantId, grantedBy));
            && Reply(db', RevokeRole(userId, roleId, tenantId)) == Ok
            && Step(db', RevokeRole(userId, roleId, tenantId)) == db
  {
    RevokeDropsOnlyRow(db, UserRole(userId, roleId, tenantId, grantedBy));
  }
}
