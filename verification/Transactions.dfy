/**
 * Every transaction body of the repositories, as a function from the store it
 * starts in to the store it commits, or `None` where it returns an error and
 * rolls back.
 */
module Transactions {
  import opened Prelude
  import opened Tables
  import opened UniqueStrings

  const DEFAULT_ROLES: seq<string> := ["owner", "admin", "member", "viewer"]

  predicate IsDefaultRole(name: string) {
    name == "owner" || name == "admin" || name == "member" || name == "viewer"
  }

  /** The join condition of the bootstrap INSERT into role_permissions. */
  predicate DefaultGrant(roleName: string, permission: string) {
    || roleName == "owner"
    || (roleName == "admin" && permission != "billing.write")
    || (roleName == "member" && (permission == "users.read" || permission == "settings.read"))
    || (roleName == "viewer" && (permission == "users.read" || permission == "billing.read"
                                 || permission == "audit.read" || permission == "settings.read"))
  }

  function DefaultGrantRows(roles: map<Uuid, Role>, permissions: map<Uuid, string>, org: string): set<RolePermission> {
    set r, p | r in roles && p in permissions && roles[r].org == org
               && IsDefaultRole(roles[r].name) && DefaultGrant(roles[r].name, permissions[p])
      :: RolePermission(org, r, p)
  }

  function BootstrapDefaultRolesTx(db: Db, org: string, ids: seq<Uuid>): Option<Db>
    requires |ids| == 4
  {
    match InsertRoles(db.roles, org, DEFAULT_ROLES, ids)
    case None => None
    case Some(roles) =>
      var rows := DefaultGrantRows(roles, db.permissions, org);
      Some(db.(roles := roles, rolePermissions := db.rolePermissions + NewRows(db.rolePermissions, rows)))
  }

  /** WithTenantQuery refuses an empty organization id before it begins. */
  function BootstrapDefaultRoles(db: Db, org: string, ids: seq<Uuid>): Option<Db>
    requires |ids| == 4
  {
    if org == "" then None else BootstrapDefaultRolesTx(db, org, ids)
  }

  /** Organization row and default roles in one transaction. */
  function RegisterOrganization(db: Db, orgId: string, name: string, ids: seq<Uuid>): Option<Db>
    requires |ids| == 4
  {
    if orgId in db.organizations then None
    else BootstrapDefaultRolesTx(db.(organizations := db.organizations[orgId := Organization(orgId, name)]), orgId, ids)
  }

  ghost function CreateUser(db: Db, org: string, zitadel: string, email: string, id: Uuid): Option<Db> {
    if org == "" then None
    else InsertUser(db, id, org, IdentityByZitadel(db, zitadel), Some(zitadel), email)
  }

  function CreateMembership(db: Db, org: string, identity: Uuid, email: string, id: Uuid): Option<Db> {
    if org == "" then None
    else InsertUser(db, id, org, Some(identity), ZitadelOf(db, identity), email)
  }

  function CreateMembershipWithRole(
    db: Db, org: string, identity: Uuid, email: string, roleName: string, id: Uuid): Option<Db>
  {
    match CreateMembership(db, org, identity, email, id)
    case None => None
    case Some(tx) => Some(tx.(userRoles := tx.userRoles + NamedRoleRows(tx.roles, org, id, roleName)))
  }

  /** Rows that `WHERE p.name = ANY($3)` selects. */
  function RequestedRows(
    permissions: map<Uuid, string>, org: string, role: Uuid, names: seq<string>): set<RolePermission>
  {
    set p | p in permissions && permissions[p] in names :: RolePermission(org, role, p)
  }

  function AssignRolePermissions(db: Db, org: string, role: Uuid, names: seq<string>): Option<Db> {
    if names == [] then Some(db)
    else
      var added := NewRows(db.rolePermissions, RequestedRows(db.permissions, org, role, names));
      if |added| != |Unique(names)| then None
      else Some(db.(rolePermissions := db.rolePermissions + added))
  }

  function CreateRole(db: Db, org: string, name: string, names: seq<string>, id: Uuid): Option<Db> {
    if org == "" then None
    else
      match InsertRole(db, org, name, id)
      case None => None
      case Some(tx) => AssignRolePermissions(tx, org, id, names)
  }

  function AssignRoleToUser(db: Db, org: string, user: Uuid, role: Uuid): Option<Db> {
    if org == "" || UserRole(org, user, role) in db.userRoles then None
    else if user !in db.users || role !in db.roles || db.roles[role].org != org then None
    else Some(db.(userRoles := db.userRoles + {UserRole(org, user, role)}))
  }

  function RemoveRoleFromUser(db: Db, org: string, user: Uuid, role: Uuid): Option<Db> {
    if org == "" || UserRole(org, user, role) !in db.userRoles then None
    else Some(db.(userRoles := db.userRoles - {UserRole(org, user, role)}))
  }

  /** The four-way join: users, user_roles, role_permissions, permissions. */
  ghost predicate UserHasPermission(db: Db, org: string, membership: Uuid, permission: string) {
    && membership in db.users && db.users[membership].org == org
    && exists r, p :: UserRole(org, membership, r) in db.userRoles
                      && RolePermission(org, r, p) in db.rolePermissions
                      && p in db.permissions && db.permissions[p] == permission
  }

  /** The names of the permissions a role is listed with. */
  ghost function PermissionsOfRole(db: Db, role: Uuid): set<string>
    requires role in db.roles
  {
    set p | p in db.permissions && RolePermission(db.roles[role].org, role, p) in db.rolePermissions
      :: db.permissions[p]
  }

  /** The rows ListRoles returns for a tenant: id, name and permission names. */
  ghost function ListedRoles(db: Db, org: string): set<(Uuid, string, set<string>)> {
    set r | r in db.roles && db.roles[r].org == org :: (r, db.roles[r].name, PermissionsOfRole(db, r))
  }

  function CreateInvitation(
    db: Db, org: string, email: string, roleName: string, token: string, expiresAt: int): Option<Db>
  {
    if !IsDefaultRole(roleName) || org == "" || token in db.invitations then None
    else Some(db.(invitations := db.invitations[token := Invitation(org, email, roleName, expiresAt, None)]))
  }

  /** UPDATE invitations SET accepted_at = now() WHERE token = $1; no row is no error. */
  function MarkAccepted(db: Db, token: string, now: int): Db {
    if token in db.invitations then
      db.(invitations := db.invitations[token := db.invitations[token].(acceptedAt := Some(now))])
    else db
  }

  // ----- Membership queries -----

  function MembershipRows(users: map<Uuid, User>, identity: Uuid): set<Uuid> {
    set u | u in users && users[u].identity == identity
  }

  /** Any answer `SELECT ... WHERE identity_id = $1 LIMIT 1`, which has no ORDER BY, may give. */
  ghost predicate DefaultMembership(users: map<Uuid, User>, identity: Uuid, answer: Option<Uuid>) {
    match answer
    case None => MembershipRows(users, identity) == {}
    case Some(u) => u in MembershipRows(users, identity)
  }

  /** SELECT COUNT(*) ... > 0. */
  predicate HasMembership(users: map<Uuid, User>, identity: Uuid) {
    |MembershipRows(users, identity)| > 0
  }
}
