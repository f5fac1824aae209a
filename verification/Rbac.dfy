/** Roles, permissions and their assignments: four relations written by two
    services. */
module Rbac {
  import opened Prelude
  import opened Ordering

  datatype Role = Role(
    id: int, tenantId: int, name: string, displayName: string, description: string, isSystem: bool, priority: int)
  datatype Permission = Permission(id: int, name: string, category: string)
  datatype RolePermission = RolePermission(roleId: int, permissionId: int)
  datatype UserRole = UserRole(userId: int, roleId: int, tenantId: int, grantedBy: int)
  datatype User = User(id: int, tenantId: int)

  datatype Db = Db(
    users: seq<User>,
    permissions: seq<Permission>,
    roles: seq<Role>,
    rolePermissions: seq<RolePermission>,
    userRoles: seq<UserRole>,
    nextRoleId: int)

  /** How a call ends: normally, or with the service's or the database's error. */
  datatype Outcome = Ok | NotFound | Forbidden | Validation | Conflict | IntegrityError

  datatype Op =
    | CreateRole(tenantId: int, name: string, displayName: string, description: string, isSystem: bool, priority: int)
    | UpdateRole(roleId: int, tenantId: int, displayName': Option<string>, description': Option<string>, priority': Option<int>)
    | DeleteRole(roleId: int, tenantId: int)
    | SetRolePermissions(roleId: int, names: seq<string>, tenantId: int)
    | AssignRole(userId: int, roleId: int, tenantId: int, grantedBy: int)
    | RevokeRole(userId: int, roleId: int, tenantId: int)
    | SetUserRoles(userId: int, roleIds: seq<int>, tenantId: int, grantedBy: int)
    | CreateCustomRole(tenantId: int, name: string, names: seq<string>)
    | UpdateRolePermissions(roleId: int, tenantId: int, names: seq<string>)

  // ---------------------------------------------------------------------------
  // Selections
  // ---------------------------------------------------------------------------

  predicate OwnedBy(r: Role, id: int, tenantId: int) { r.id == id && r.tenantId == tenantId }

  predicate VisibleTo(r: Role, id: int, tenantId: int) { r.id == id && (r.tenantId == tenantId || r.tenantId == 0) }

  predicate OwnsRole(db: Db, id: int, tenantId: int) {
    exists r :: r in db.roles && OwnedBy(r, id, tenantId)
  }

  predicate SeesRole(db: Db, id: int, tenantId: int) {
    exists r :: r in db.roles && VisibleTo(r, id, tenantId)
  }

  predicate IsSystemRole(db: Db, id: int) {
    exists r :: r in db.roles && r.id == id && r.isSystem
  }

  predicate NameTaken(db: Db, tenantId: int, name: string) {
    exists r :: r in db.roles && r.tenantId == tenantId && r.name == name
  }

  predicate HasUser(db: Db, userId: int, tenantId: int) { User(userId, tenantId) in db.users }

  predicate HasRow(db: Db, userId: int, roleId: int, tenantId: int) {
    exists x :: x in db.userRoles && SameRow(x, userId, roleId, tenantId)
  }

  predicate SameRow(x: UserRole, userId: int, roleId: int, tenantId: int) {
    x.userId == userId && x.roleId == roleId && x.tenantId == tenantId
  }

  function Named(names: seq<string>): Permission -> bool { (p: Permission) => p.name in names }

  /** `select permissions where name in names`. */
  function FoundPermissions(db: Db, names: seq<string>): seq<Permission> { Filter(db.permissions, Named(names)) }

  predicate AllNamesExist(db: Db, names: seq<string>) {
    forall n :: n in names ==> exists p :: p in db.permissions && p.name == n
  }

  function NotOfRole(roleId: int): RolePermission -> bool { (x: RolePermission) => x.roleId != roleId }
  function RowNotOfRole(roleId: int): UserRole -> bool { (x: UserRole) => x.roleId != roleId }
  function RoleIsNot(roleId: int): Role -> bool { (r: Role) => r.id != roleId }
  function NotRow(userId: int, roleId: int, tenantId: int): UserRole -> bool { (x: UserRole) => !SameRow(x, userId, roleId, tenantId) }
  function NotOfUser(userId: int, tenantId: int): UserRole -> bool { (x: UserRole) => x.userId != userId || x.tenantId != tenantId }

  function RowsFor(roleId: int, ps: seq<Permission>): (r: seq<RolePermission>)
    ensures |r| == |ps| && forall i :: 0 <= i < |ps| ==> r[i] == RolePermission(roleId, ps[i].id)
  {
    seq(|ps|, i requires 0 <= i < |ps| => RolePermission(roleId, ps[i].id))
  }

  function GrantsFor(userId: int, ids: seq<int>, tenantId: int, grantedBy: int): (r: seq<UserRole>)
    ensures |r| == |ids| && forall i :: 0 <= i < |ids| ==> r[i] == UserRole(userId, ids[i], tenantId, grantedBy)
  {
    seq(|ids|, i requires 0 <= i < |ids| => UserRole(userId, ids[i], tenantId, grantedBy))
  }

  /** `list(dict.fromkeys(xs))`: the first occurrence of each element. */
  function FirstOccurrences<T(==,!new)>(xs: seq<T>): (r: seq<T>)
    ensures forall x :: x in r <==> x in xs
    ensures Distinct(r)
  {
    if xs == [] then []
    else
      var n := |xs| - 1;
      var init := FirstOccurrences(xs[..n]);
      assert forall x :: x in xs <==> x in xs[..n] || x == xs[n];
      if xs[n] in init then init
      else
        init + [xs[n]]
  }

  // ---------------------------------------------------------------------------
  // The calls
  // ---------------------------------------------------------------------------

  function Reply(db: Db, op: Op): Outcome {
    match op
    case CreateRole(t, name, _, _, _, _) => if NameTaken(db, t, name) then IntegrityError else Ok
    case UpdateRole(id, t, d, e, p) =>
      if d.None? && e.None? && p.None? then Validation
      else if !OwnsRole(db, id, t) then NotFound
      else Ok
    case DeleteRole(id, t) =>
      if !OwnsRole(db, id, t) then NotFound
      else if IsSystemRole(db, id) then Forbidden
      else Ok
    case SetRolePermissions(id, names, t) =>
      if !OwnsRole(db, id, t) then NotFound
      else if !AllNamesExist(db, names) then Validation
      else Ok
    case AssignRole(u, id, t, _) =>
      if !HasUser(db, u, t) || !SeesRole(db, id, t) then NotFound else Ok
    case RevokeRole(u, id, t) =>
      if !HasUser(db, u, t) || !HasRow(db, u, id, t) then NotFound else Ok
    case SetUserRoles(u, ids, t, _) =>
      if !HasUser(db, u, t) then NotFound
      else if exists id :: id in ids && !SeesRole(db, id, t) then Validation
      else Ok
    case CreateCustomRole(t, name, names) =>
      if NameTaken(db, t, name) then Conflict
      else if !AllNamesExist(db, names) then Validation
      else Ok
    case UpdateRolePermissions(id, t, names) =>
      if !SeesRole(db, id, t) then NotFound
      else if IsSystemRole(db, id) then Forbidden
      else if !AllNamesExist(db, names) then Validation
      else Ok
  }

  function WithRole(db: Db, r: Role): Db {
    db.(roles := db.roles + [r], nextRoleId := db.nextRoleId + 1)
  }

  function NewRole(db: Db, tenantId: int, name: string): Role {
    Role(db.nextRoleId, tenantId, name, name, "", false, 0)
  }

  function Renamed(r: Role, roleId: int, d: Option<string>, e: Option<string>, p: Option<int>): (q: Role)
    ensures q.id == r.id && q.tenantId == r.tenantId && q.name == r.name && q.isSystem == r.isSystem
  {
    if r.id != roleId then r
    else r.(displayName := if d.Some? then d.value else r.displayName,
            description := if e.Some? then e.value else r.description,
            priority := if p.Some? then p.value else r.priority)
  }

  function RenamedAll(rs: seq<Role>, roleId: int, d: Option<string>, e: Option<string>, p: Option<int>): (r: seq<Role>)
    ensures |r| == |rs| && forall i :: 0 <= i < |rs| ==> r[i] == Renamed(rs[i], roleId, d, e, p)
  {
    seq(|rs|, i requires 0 <= i < |rs| => Renamed(rs[i], roleId, d, e, p))
  }

  /** Deleting a role takes its permission and user rows with it (ON DELETE CASCADE). */
  function WithoutRole(db: Db, roleId: int): Db {
    db.(roles := Filter(db.roles, RoleIsNot(roleId)),
        rolePermissions := Filter(db.rolePermissions, NotOfRole(roleId)),
        userRoles := Filter(db.userRoles, RowNotOfRole(roleId)))
  }

  function WithPermissions(db: Db, roleId: int, names: seq<string>): Db {
    db.(rolePermissions :=
      Filter(db.rolePermissions, NotOfRole(roleId)) + RowsFor(roleId, FoundPermissions(db, names)))
  }

  function WithGrants(db: Db, userId: int, ids: seq<int>, tenantId: int, grantedBy: int): Db {
    db.(userRoles :=
      Filter(db.userRoles, NotOfUser(userId, tenantId))
      + GrantsFor(userId, FirstOccurrences(ids), tenantId, grantedBy))
  }

  function Step(db: Db, op: Op): Db {
    if Reply(db, op) != Ok then db
    else
      match op
      case CreateRole(t, name, display, description, isSystem, priority) =>
        WithRole(db, Role(db.nextRoleId, t, name, if display != "" then display else name, description, isSystem, priority))
      case UpdateRole(id, _, d, e, p) => db.(roles := RenamedAll(db.roles, id, d, e, p))
      case DeleteRole(id, _) => WithoutRole(db, id)
      case SetRolePermissions(id, names, _) => WithPermissions(db, id, names)
      case AssignRole(u, id, t, granter) =>
        if HasRow(db, u, id, t) then db else db.(userRoles := db.userRoles + [UserRole(u, id, t, granter)])
      case RevokeRole(u, id, t) => db.(userRoles := Filter(db.userRoles, NotRow(u, id, t)))
      case SetUserRoles(u, ids, t, granter) => WithGrants(db, u, ids, t, granter)
      case CreateCustomRole(t, name, names) =>
        var db' := WithRole(db, NewRole(db, t, name));
        db'.(rolePermissions := db.rolePermissions + RowsFor(db.nextRoleId, FoundPermissions(db, names)))
      case UpdateRolePermissions(id, _, names) => WithPermissions(db, id, names)
  }

  function Run(db: Db, ops: seq<Op>): Db
    decreases |ops|
  {
    if ops == [] then db else Run(Step(db, ops[0]), ops[1..])
  }

  // ---------------------------------------------------------------------------
  // The relational invariant
  // ---------------------------------------------------------------------------

  ghost predicate PermissionsUnique(ps: seq<Permission>) {
    forall i, j :: 0 <= i < j < |ps| ==> ps[i].id != ps[j].id && ps[i].name != ps[j].name
  }

  /** Role ids are unique and below the sequence; names are unique within a tenant. */
  ghost predicate RolesUnique(db: Db) {
    && (forall r :: r in db.roles ==> r.id < db.nextRoleId)
    && forall i, j :: 0 <= i < j < |db.roles| ==>
         && db.roles[i].id != db.roles[j].id
         && (db.roles[i].tenantId != db.roles[j].tenantId || db.roles[i].name != db.roles[j].name)
  }

  ghost predicate RowsUnique(rows: seq<UserRole>) {
    forall i, j :: 0 <= i < j < |rows| ==> !SameRow(rows[j], rows[i].userId, rows[i].roleId, rows[i].tenantId)
  }

  ghost predicate Inv(db: Db) {
    && PermissionsUnique(db.permissions)
    && RolesUnique(db)
    && Distinct(db.rolePermissions)
    && (forall x :: x in db.rolePermissions ==>
          && (exists r :: r in db.roles && r.id == x.roleId)
          && (exists p :: p in db.permissions && p.id == x.permissionId))
    && RowsUnique(db.userRoles)
    && forall x :: x in db.userRoles ==> SeesRole(db, x.roleId, x.tenantId)
  }
}
