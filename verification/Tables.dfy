/**
 * The relational store: one value holding every table the membership,
 * RBAC, invitation and onboarding code touches, the constraints the migrations
 * put on it, and the SQL statements that code issues, each as a function from
 * a store to the store it leaves, or `None` where the statement fails.
 *
 * Surrogate ids of link tables and audit timestamps are left out: nothing
 * reads them. A UUID that the database generates is an input.
 */
module Tables {
  import opened Prelude

  type Uuid = int

  /** identities: zitadel_user_id and email are UNIQUE. */
  datatype Identity = Identity(zitadel: string, email: string, name: string)

  /** organizations, keyed by the UNIQUE zitadel_org_id. */
  datatype Organization = Organization(organizationId: string, name: string)

  /** users: zitadel_user_id and email are UNIQUE over all tenants. */
  datatype User = User(org: string, identity: Uuid, zitadel: string, email: string)

  /** roles: (organization_id, name) is UNIQUE. */
  datatype Role = Role(org: string, name: string)

  /** role_permissions: (role_id, permission_id) is UNIQUE. */
  datatype RolePermission = RolePermission(org: string, role: Uuid, permission: Uuid)

  /** user_roles: the triple is UNIQUE, and user_id names a user of any tenant. */
  datatype UserRole = UserRole(org: string, user: Uuid, role: Uuid)

  /** invitations, keyed by the UNIQUE token. */
  datatype Invitation = Invitation(
    org: string, email: string, roleName: string, expiresAt: int, acceptedAt: Option<int>)

  datatype Db = Db(
    identities: map<Uuid, Identity>,
    organizations: map<string, Organization>,
    users: map<Uuid, User>,
    permissions: map<Uuid, string>,
    roles: map<Uuid, Role>,
    rolePermissions: set<RolePermission>,
    userRoles: set<UserRole>,
    invitations: map<string, Invitation>)

  // ----- Constraints -----

  ghost predicate UniqueIdentities(identities: map<Uuid, Identity>) {
    && (forall i, j :: i in identities && j in identities && identities[i].zitadel == identities[j].zitadel ==> i == j)
    && (forall i, j :: i in identities && j in identities && identities[i].email == identities[j].email ==> i == j)
  }

  ghost predicate UniqueUsers(users: map<Uuid, User>) {
    && (forall u, v :: u in users && v in users && users[u].zitadel == users[v].zitadel ==> u == v)
    && (forall u, v :: u in users && v in users && users[u].email == users[v].email ==> u == v)
  }

  ghost predicate UniqueNames(permissions: map<Uuid, string>) {
    forall p, q :: p in permissions && q in permissions && permissions[p] == permissions[q] ==> p == q
  }

  ghost predicate UniqueRoles(roles: map<Uuid, Role>) {
    forall r, q :: r in roles && q in roles && roles[r] == roles[q] ==> r == q
  }

  ghost predicate RolePermissionKeys(
    rolePermissions: set<RolePermission>, roles: map<Uuid, Role>, permissions: map<Uuid, string>)
  {
    forall rp :: rp in rolePermissions ==>
                   rp.role in roles && roles[rp.role].org == rp.org && rp.permission in permissions
  }

  ghost predicate UserRoleKeys(userRoles: set<UserRole>, roles: map<Uuid, Role>, users: map<Uuid, User>) {
    forall ur :: ur in userRoles ==>
                   ur.user in users && ur.role in roles && roles[ur.role].org == ur.org
  }

  /** The PRIMARY KEY, UNIQUE, NOT NULL and FOREIGN KEY constraints of the migrations. */
  ghost predicate Constraints(db: Db) {
    && UniqueIdentities(db.identities)
    && UniqueUsers(db.users)
    && (forall u :: u in db.users ==> db.users[u].identity in db.identities)
    && UniqueNames(db.permissions)
    && UniqueRoles(db.roles)
    && RolePermissionKeys(db.rolePermissions, db.roles, db.permissions)
    && UserRoleKeys(db.userRoles, db.roles, db.users)
  }

  // ----- Statements on identities -----

  /** SELECT id FROM identities WHERE zitadel_user_id = $1. */
  ghost function IdentityByZitadel(db: Db, zitadel: string): Option<Uuid> {
    if exists i :: i in db.identities && db.identities[i].zitadel == zitadel then
      var i :| i in db.identities && db.identities[i].zitadel == zitadel;
      Some(i)
    else
      None
  }

  predicate EmailTaken(identities: map<Uuid, Identity>, email: string, except: Uuid) {
    exists i :: i in identities && i != except && identities[i].email == email
  }

  function InsertIdentity(db: Db, id: Uuid, row: Identity): Option<Db> {
    if id in db.identities
      || exists i :: i in db.identities
                     && (db.identities[i].zitadel == row.zitadel || db.identities[i].email == row.email)
    then None
    else Some(db.(identities := db.identities[id := row]))
  }

  /** UPDATE ... RETURNING on the row found, if any; zero rows is an error to the caller. */
  function UpdateIdentityRow(db: Db, found: Option<Uuid>, row: Identity): Option<Db> {
    if found.None? || EmailTaken(db.identities, row.email, found.value) then None
    else Some(db.(identities := db.identities[found.value := row]))
  }

  ghost function UpdateIdentity(db: Db, zitadel: string, email: string, name: string): Option<Db> {
    UpdateIdentityRow(db, IdentityByZitadel(db, zitadel), Identity(zitadel, email, name))
  }

  // ----- Statements on users -----

  /** INSERT INTO users; a sub-select that found nothing is a NULL in a NOT NULL column. */
  function InsertUser(
    db: Db, id: Uuid, org: string, identity: Option<Uuid>, zitadel: Option<string>, email: string): Option<Db>
  {
    if identity.None? || zitadel.None? then None
    else if identity.value !in db.identities || id in db.users then None
    else if exists u :: u in db.users && (db.users[u].zitadel == zitadel.value || db.users[u].email == email) then None
    else Some(db.(users := db.users[id := User(org, identity.value, zitadel.value, email)]))
  }

  /** (SELECT zitadel_user_id FROM identities WHERE id = $1). */
  function ZitadelOf(db: Db, identity: Uuid): Option<string> {
    if identity in db.identities then Some(db.identities[identity].zitadel) else None
  }

  // ----- Statements on roles -----

  predicate HasRole(roles: map<Uuid, Role>, org: string, name: string) {
    exists r :: r in roles && roles[r] == Role(org, name)
  }

  /** INSERT INTO roles without ON CONFLICT. */
  function InsertRole(db: Db, org: string, name: string, id: Uuid): Option<Db> {
    if id in db.roles || HasRole(db.roles, org, name) then None
    else Some(db.(roles := db.roles[id := Role(org, name)]))
  }

  /** INSERT INTO roles ... ON CONFLICT (organization_id, name) DO NOTHING, row by row. */
  function InsertRoles(roles: map<Uuid, Role>, org: string, names: seq<string>, ids: seq<Uuid>): Option<map<Uuid, Role>>
    requires |names| == |ids|
    decreases |names|
  {
    if names == [] then Some(roles)
    else if HasRole(roles, org, names[0]) then InsertRoles(roles, org, names[1..], ids[1..])
    else if ids[0] in roles then None
    else InsertRoles(roles[ids[0] := Role(org, names[0])], org, names[1..], ids[1..])
  }

  predicate SamePair(x: RolePermission, y: RolePermission) {
    x.role == y.role && x.permission == y.permission
  }

  /** The rows an INSERT INTO role_permissions ... ON CONFLICT (role_id, permission_id) DO NOTHING adds. */
  function NewRows(existing: set<RolePermission>, rows: set<RolePermission>): set<RolePermission> {
    set x | x in rows && !(exists y :: y in existing && SamePair(x, y))
  }

  /** The rows `INSERT INTO user_roles SELECT ... WHERE r.name = $3` selects. */
  function NamedRoleRows(roles: map<Uuid, Role>, org: string, user: Uuid, name: string): set<UserRole> {
    set r | r in roles && roles[r] == Role(org, name) :: UserRole(org, user, r)
  }
}
