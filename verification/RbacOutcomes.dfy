/** How the calls of the two role services end, and what they leave in the
    tables, said of the tables' rows alone. */
module RbacOutcomes {
  import opened Prelude
  import opened Ordering
  import opened Rbac
  import opened RbacTheory

  /** Every name is that of some permission. */
  ghost predicate AllKnown(db: Db, names: seq<string>) {
    forall i :: 0 <= i < |names| ==> Known(db, names[i])
  }

  ghost predicate Known(db: Db, name: string) { exists p :: p in db.permissions && p.name == name }

  /** The tenant or tenant 0 has a role with that id. */
  ghost predicate Visible(db: Db, id: int, tenantId: int) {
    exists r :: r in db.roles && r.id == id && r.tenantId in {tenantId, 0}
  }

  /** Exactly when each of the nine calls succeeds. */
  lemma SucceedsExactlyWhen(db: Db, op: Op)
    requires Inv(db)
    ensures Reply(db, op) == Ok <==>
              match op
              case CreateRole(t, name, _, _, _, _) => !exists r :: r in db.roles && r.tenantId == t && r.name == name
              case UpdateRole(id, t, d, e, p) =>
                (d != None || e != None || p != None) && exists r :: r in db.roles && r.id == id && r.tenantId == t
              case DeleteRole(id, t) => exists r :: r in db.roles && r.id == id && r.tenantId == t && !r.isSystem
              case SetRolePermissions(id, names, t) =>
                (exists r :: r in db.roles && r.id == id && r.tenantId == t) && AllKnown(db, names)
              case AssignRole(u, id, t, _) =>
                User(u, t) in db.users && Visible(db, id, t)
              case RevokeRole(u, id, t) =>
                User(u, t) in db.users
                && exists x :: x in db.userRoles && x.userId == u && x.roleId == id && x.tenantId == t
              case SetUserRoles(u, ids, t, _) =>
                User(u, t) in db.users
                && forall i :: 0 <= i < |ids| ==> Visible(db, ids[i], t)
              case CreateCustomRole(t, name, names) =>
                (!exists r :: r in db.roles && r.tenantId == t && r.name == name) && AllKnown(db, names)
              case UpdateRolePermissions(id, t, names) =>
                (exists r :: r in db.roles && r.id == id && r.tenantId in {t, 0} && !r.isSystem) && AllKnown(db, names)
  {
    match op
    case DeleteRole(id, t) => OneRolePerId(db, id);
    case SetRolePermissions(_, names, _) => KnownNames(db, names);
    case CreateCustomRole(_, _, names) => KnownNames(db, names);
    case UpdateRolePermissions(id, t, names) =>
      KnownNames(db, names);
      OneRolePerId(db, id);
      VisibleRole(db, id, t);
    case SetUserRoles(u, ids, t, _) => VisibleRoles(db, ids, t);
    case AssignRole(u, id, t, _) => VisibleRole(db, id, t);
    case _ =>
  }

  lemma KnownNames(db: Db, names: seq<string>)
    ensures AllNamesExist(db, names) <==> AllKnown(db, names)
  {
    if AllKnown(db, names) {
      forall n | n in names ensures exists p :: p in db.permissions && p.name == n {
        var i :| 0 <= i < |names| && names[i] == n;
        assert Known(db, names[i]);
      }
    }
    if AllNamesExist(db, names) {
      forall i | 0 <= i < |names| ensures Known(db, names[i]) { assert names[i] in names; }
    }
  }

  lemma VisibleRole(db: Db, id: int, tenantId: int)
    ensures SeesRole(db, id, tenantId) <==> Visible(db, id, tenantId)
  {
    if Visible(db, id, tenantId) {
      var r :| r in db.roles && r.id == id && r.tenantId in {tenantId, 0};
      assert VisibleTo(r, id, tenantId);
    }
  }

  lemma VisibleRoles(db: Db, ids: seq<int>, tenantId: int)
    ensures (forall id :: id in ids ==> SeesRole(db, id, tenantId)) <==>
            forall i :: 0 <= i < |ids| ==> Visible(db, ids[i], tenantId)
  {
    forall id ensures SeesRole(db, id, tenantId) <==> Visible(db, id, tenantId) {
      VisibleRole(db, id, tenantId);
    }
    assert forall i :: 0 <= i < |ids| ==> ids[i] in ids;
    if forall i :: 0 <= i < |ids| ==> Visible(db, ids[i], tenantId) {
      forall id | id in ids ensures SeesRole(db, id, tenantId) {
        var i :| 0 <= i < |ids| && ids[i] == id;
        assert Visible(db, ids[i], tenantId);
      }
    }
  }

  lemma OneRolePerId(db: Db, id: int)
    requires Inv(db)
    ensures forall r, q :: r in db.roles && q in db.roles && r.id == id && q.id == id ==> r == q
  {
  }

  /** With which error the others end; what is not said here is a validation error. */
  lemma FailsAs(db: Db, op: Op)
    requires Inv(db)
    ensures Reply(db, op) == NotFound <==>
              || ((op.DeleteRole? || op.SetRolePermissions?
                   || (op.UpdateRole? && !(op.displayName' == None && op.description' == None && op.priority' == None)))
                  && !exists r :: r in db.roles && r.id == op.roleId && r.tenantId == op.tenantId)
              || ((op.AssignRole? || op.UpdateRolePermissions?)
                  && !Visible(db, op.roleId, op.tenantId))
              || ((op.AssignRole? || op.RevokeRole? || op.SetUserRoles?) && User(op.userId, op.tenantId) !in db.users)
              || (op.RevokeRole? && !exists x :: x in db.userRoles && x.userId == op.userId && x.roleId == op.roleId
                                                 && x.tenantId == op.tenantId)
    ensures Reply(db, op) == Forbidden <==>
              || (op.DeleteRole? && exists r :: r in db.roles && r.id == op.roleId && r.tenantId == op.tenantId && r.isSystem)
              || (op.UpdateRolePermissions?
                  && exists r :: r in db.roles && r.id == op.roleId && r.tenantId in {op.tenantId, 0} && r.isSystem)
    ensures Reply(db, op) == Conflict <==>
              op.CreateCustomRole? && exists r :: r in db.roles && r.tenantId == op.tenantId && r.name == op.name
    ensures Reply(db, op) == IntegrityError <==>
              op.CreateRole? && exists r :: r in db.roles && r.tenantId == op.tenantId && r.name == op.name
  {
    if op.DeleteRole? || op.UpdateRolePermissions? { OneRolePerId(db, op.roleId); }
    if op.AssignRole? || op.UpdateRolePermissions? { VisibleRole(db, op.roleId, op.tenantId); }
  }

  /** A refused call changes nothing. */
  lemma RefusedChangesNothing(db: Db, op: Op)
    ensures Reply(db, op) != Ok ==> Step(db, op) == db
  {
  }

  /** The tables of users and permissions are never written; the role table
      changes only by the four calls that write it, each as said here. */
  lemma RolesAfter(db: Db, op: Op)
    requires Inv(db) && Reply(db, op) == Ok
    ensures var db' := Step(db, op);
            && db'.users == db.users && db'.permissions == db.permissions
            && (match op
                case CreateRole(t, name, display, description, isSystem, priority) =>
                  db'.roles == db.roles + [Role(db.nextRoleId, t, name, if |display| > 0 then display else name,
                                                description, isSystem, priority)]
                case CreateCustomRole(t, name, _) =>
                  db'.roles == db.roles + [Role(db.nextRoleId, t, name, name, "", false, 0)]
                case DeleteRole(id, t) => forall r :: r in db'.roles <==> r in db.roles && r.id != id
                case UpdateRole(id, t, d, e, p) =>
                  && |db'.roles| == |db.roles|
                  && forall i :: 0 <= i < |db.roles| ==>
                       var r := db.roles[i];
                       db'.roles[i] == if r.id != id then r
                                       else Role(r.id, r.tenantId, r.name, Given(d, r.displayName),
                                                 Given(e, r.description), r.isSystem, Given(p, r.priority))
                case _ => db'.roles == db.roles)
  {
  }

  /** The value given for a field, or the one it had. */
  function Given<T>(value: Option<T>, was: T): T {
    match value
    case Some(v) => v
    case None => was
  }

  /** What a call leaves in the table of roles' permissions. */
  lemma RolePermissionsAfter(db: Db, op: Op, x: RolePermission)
    requires Inv(db) && Reply(db, op) == Ok
    ensures x in Step(db, op).rolePermissions <==>
              match op
              case DeleteRole(id, _) => x in db.rolePermissions && x.roleId != id
              case SetRolePermissions(id, names, _) =>
                if x.roleId == id then Names(db, x.permissionId, names) else x in db.rolePermissions
              case UpdateRolePermissions(id, _, names) =>
                if x.roleId == id then Names(db, x.permissionId, names) else x in db.rolePermissions
              case CreateCustomRole(_, _, names) =>
                if x.roleId == db.nextRoleId then Names(db, x.permissionId, names) else x in db.rolePermissions
              case _ => x in db.rolePermissions
  {
    match op
    case SetRolePermissions(id, names, _) => RowsForMeans(db, id, names, x);
    case UpdateRolePermissions(id, _, names) => RowsForMeans(db, id, names, x);
    case CreateCustomRole(_, _, names) => RowsForMeans(db, db.nextRoleId, names, x);
    case _ =>
  }

  /** The permission has one of the names. */
  ghost predicate Names(db: Db, permissionId: int, names: seq<string>) {
    exists p :: p in db.permissions && p.id == permissionId && p.name in names
  }

  lemma RowsForMeans(db: Db, roleId: int, names: seq<string>, x: RolePermission)
    ensures x in RowsFor(roleId, FoundPermissions(db, names)) <==> x.roleId == roleId && Names(db, x.permissionId, names)
  {
    var found := FoundPermissions(db, names);
    var rows := RowsFor(roleId, found);
    if x.roleId == roleId && Names(db, x.permissionId, names) {
      var p :| p in db.permissions && p.id == x.permissionId && p.name in names;
      assert p in found;
      var i :| 0 <= i < |found| && found[i] == p;
      assert rows[i] == x;
    }
    if x in rows {
      var i :| 0 <= i < |rows| && rows[i] == x;
      assert found[i] in found;
    }
  }

  /** What a call leaves in the table of users' roles. */
  lemma UserRolesAfter(db: Db, op: Op, x: UserRole)
    requires Inv(db) && Reply(db, op) == Ok
    ensures x in Step(db, op).userRoles <==>
              match op
              case DeleteRole(id, _) => x in db.userRoles && x.roleId != id
              case AssignRole(u, id, t, granter) =>
                || x in db.userRoles
                || (x == UserRole(u, id, t, granter)
                    && !exists y :: y in db.userRoles && y.userId == u && y.roleId == id && y.tenantId == t)
              case RevokeRole(u, id, t) => x in db.userRoles && !(x.userId == u && x.roleId == id && x.tenantId == t)
              case SetUserRoles(u, ids, t, granter) =>
                if x.userId == u && x.tenantId == t then x.grantedBy == granter && x.roleId in ids else x in db.userRoles
              case _ => x in db.userRoles
  {
    if op.SetUserRoles? {
      GrantsMean(op.userId, FirstOccurrences(op.roleIds), op.tenantId, op.grantedBy, x);
    }
  }

  lemma GrantsMean(userId: int, ids: seq<int>, tenantId: int, grantedBy: int, x: UserRole)
    ensures x in GrantsFor(userId, ids, tenantId, grantedBy) <==>
              x.userId == userId && x.tenantId == tenantId && x.grantedBy == grantedBy && x.roleId in ids
  {
    var grants := GrantsFor(userId, ids, tenantId, grantedBy);
    if x.userId == userId && x.tenantId == tenantId && x.grantedBy == grantedBy && x.roleId in ids {
      var i :| 0 <= i < |ids| && ids[i] == x.roleId;
      assert grants[i] == x;
    }
  }

  /** Whoever calls what, a role flagged as a system role is never removed and
      keeps its flag, its name and its tenant. */
  lemma {:induction false} SystemRolesLiveOn(db: Db, ops: seq<Op>, r: Role) returns (r': Role)
    requires Inv(db) && r in db.roles && r.isSystem
    ensures r' in Run(db, ops).roles
    ensures r'.id == r.id && r'.tenantId == r.tenantId && r'.name == r.name && r'.isSystem
    decreases |ops|
  {
    if ops == [] {
      r' := r;
    } else {
      StepKeepsInv(db, ops[0]);
      var next := SystemRoleAfter(db, ops[0], r);
      r' := SystemRolesLiveOn(Step(db, ops[0]), ops[1..], next);
    }
  }

  lemma SystemRoleAfter(db: Db, op: Op, r: Role) returns (r': Role)
    requires Inv(db) && r in db.roles && r.isSystem
    ensures r' in Step(db, op).roles
    ensures r'.id == r.id && r'.tenantId == r.tenantId && r'.name == r.name && r'.isSystem
  {
    r' := r;
    if Reply(db, op) == Ok {
      RolesAfter(db, op);
      SucceedsExactlyWhen(db, op);
      if op.DeleteRole? { OneRolePerId(db, op.roleId); }
      if op.UpdateRole? {
        var i :| 0 <= i < |db.roles| && db.roles[i] == r;
        r' := Step(db, op).roles[i];
      }
    }
  }
}
