/**
 * The repositories and the two sagas as methods on a store they change in
 * place. A transaction works on a copy and installs it on commit; where it
 * returns early the copy is dropped, which is the rollback.
 */
module Repositories {
  import opened Prelude
  import opened Tables
  import opened Transactions
  import opened Steps
  import Grants
  import UniqueStrings

  /** Where a transaction, or a plain query, is made to fail. */
  datatype Fault = NoFault | BeginFails | ContextFails | CommitFails

  datatype Failure =
    | StoreFailure
    | AlreadyOnboarded
    | InvalidRole
    | InvitationNotFound
    | AlreadyAccepted
    | InvitationExpired
    | EmailMismatch

  /** What a transaction commits, given the fault it meets. */
  ghost function Committed(tx: Option<Db>, fault: Fault): Option<Db> {
    if fault.NoFault? then tx else None
  }

  ghost function FoundOrCreated(
    db: Db, zitadel: string, email: string, name: string, id: Uuid, fault: Fault): Option<Db>
  {
    match IdentityByZitadel(db, zitadel)
    case None => Committed(InsertIdentity(db, id, Identity(zitadel, email, name)), fault)
    case Some(i) =>
      if db.identities[i].email == email && db.identities[i].name == name then Some(db)
      else Committed(UpdateIdentity(db, zitadel, email, name), fault)
  }

  /**
   * A login leaves exactly one identity for the provider id, with the address and
   * name it presented; an identity that was there keeps its id and its provider
   * id, and nobody else's row changes.
   */
  lemma FoundOrCreatedIdentity(db: Db, zitadel: string, email: string, name: string, id: Uuid, fault: Fault)
    requires UniqueIdentities(db.identities) && FoundOrCreated(db, zitadel, email, name, id, fault).Some?
    ensures var after := FoundOrCreated(db, zitadel, email, name, id, fault).value;
            var before := IdentityByZitadel(db, zitadel);
            var i := if before.Some? then before.value else id;
            && after == db.(identities := db.identities[i := Identity(zitadel, email, name)])
            && UniqueIdentities(after.identities)
            && IdentityByZitadel(after, zitadel) == Some(i)
  {
    var after, before := FoundOrCreated(db, zitadel, email, name, id, fault).value, IdentityByZitadel(db, zitadel);
    var i := if before.Some? then before.value else id;
    assert after.identities == db.identities[i := Identity(zitadel, email, name)];
    TheIdentity(after, i, zitadel);
  }

  /**
   * A login goes through exactly if no one else has its address and a new
   * identity's id is new; a fault stops every login but one that changes nothing.
   */
  lemma LoginSucceedsExactly(db: Db, zitadel: string, email: string, name: string, id: Uuid, fault: Fault)
    requires UniqueIdentities(db.identities)
    ensures fault.NoFault? ==>
              (FoundOrCreated(db, zitadel, email, name, id, fault).Some?
               <==> && (forall i :: i in db.identities && db.identities[i].email == email ==>
                                      db.identities[i].zitadel == zitadel)
                    && ((exists i :: i in db.identities && db.identities[i].zitadel == zitadel)
                        || id !in db.identities))
    ensures !fault.NoFault? ==>
              (FoundOrCreated(db, zitadel, email, name, id, fault).Some?
               <==> exists i :: i in db.identities && db.identities[i] == Identity(zitadel, email, name))
  {
    if i :| i in db.identities && db.identities[i].zitadel == zitadel {
      TheIdentity(db, i, zitadel);
      if FoundOrCreated(db, zitadel, email, name, id, fault).Some? && !fault.NoFault? {
        assert db.identities[i] == Identity(zitadel, email, name);
      }
    }
  }

  lemma TheIdentity(db: Db, i: Uuid, zitadel: string)
    requires UniqueIdentities(db.identities) && i in db.identities && db.identities[i].zitadel == zitadel
    ensures IdentityByZitadel(db, zitadel) == Some(i)
  {
  }

  // ----- The sagas as runs of the state machine -----

  /** A store with one session and no attempt yet. */
  ghost function Alone(db: Db, identity: Uuid, email: string): Sys {
    Sys(db, map[], map[], {}, {}, {}, {(identity, email)}, {})
  }

  /** An attempt whose check fails never gets under way. */
  ghost function OnboardingEvents(
    identity: Uuid, email: string, orgId: string, name: string, ids: seq<Uuid>, id: Uuid,
    checkFault: Fault, registerFault: Fault, joinFault: Fault): seq<Event>
  {
    if !checkFault.NoFault? then []
    else
    [ Onboard(0, CheckMembership(identity, email)),
      Onboard(0, if registerFault.NoFault? then RegisterOrg(orgId, name, ids) else AbandonOnboarding),
      Onboard(0, if joinFault.NoFault? then JoinAsOwner(id) else AbandonOnboarding) ]
  }

  ghost function AcceptanceEvents(
    token: string, identity: Uuid, email: string, readAt: int, id: Uuid, markAt: int,
    readFault: Fault, joinFault: Fault, markFault: Fault): seq<Event>
  {
    if !readFault.NoFault? then []
    else
    [ Accept(0, ReadInvitation(token, identity, email, readAt)),
      Accept(0, if joinFault.NoFault? then JoinAsInvited(id) else AbandonAcceptance),
      Accept(0, if markFault.NoFault? then MarkInvitation(markAt) else AbandonAcceptance) ]
  }

  class Pool {
    var db: Db

    constructor (db: Db)
      ensures this.db == db
    {
      this.db := db;
    }

    // ----- identities -----

    /** SELECT ... FROM identities WHERE zitadel_user_id = $1, as a scan. */
    method GetByZitadelUserID(zitadel: string) returns (found: Option<Uuid>)
      requires UniqueIdentities(db.identities)
      ensures found == IdentityByZitadel(db, zitadel)
    {
      var rest := db.identities;
      found := None;
      while rest != map[]
        invariant forall i :: i in rest ==> i in db.identities && rest[i] == db.identities[i]
        invariant forall i :: i in db.identities && db.identities[i].zitadel == zitadel ==> i in rest
        decreases |rest|
      {
        ghost var some := PickElement(rest.Keys);
        var i :| i in rest;
        if rest[i].zitadel == zitadel {
          found := Some(i);
          return;
        }
        rest := rest - {i};
      }
    }

    method CreateIdentity(id: Uuid, row: Identity, fault: Fault) returns (r: Result<Uuid, Failure>)
      modifies this
      ensures match Committed(InsertIdentity(old(db), id, row), fault)
              case None => db == old(db) && r.Err?
              case Some(after) => db == after && r == Ok(id)
    {
      if !fault.NoFault? || id in db.identities {
        return Err(StoreFailure);
      }
      if exists i :: i in db.identities
                     && (db.identities[i].zitadel == row.zitadel || db.identities[i].email == row.email) {
        return Err(StoreFailure);
      }
      db := db.(identities := db.identities[id := row]);
      r := Ok(id);
    }

    method UpdateIdentity(zitadel: string, email: string, name: string, fault: Fault) returns (r: Result<(), Failure>)
      requires UniqueIdentities(db.identities)
      modifies this
      ensures match Committed(Tables.UpdateIdentity(old(db), zitadel, email, name), fault)
              case None => db == old(db) && r.Err?
              case Some(after) => db == after && r.Ok?
    {
      var found := GetByZitadelUserID(zitadel);
      var tx := UpdateIdentityRow(db, found, Identity(zitadel, email, name));
      if tx.None? || !fault.NoFault? {
        return Err(StoreFailure);
      }
      db := tx.value;
      r := Ok(());
    }

    /** Three separate statements at most: find, then update or create. */
    method FindOrCreateIdentity(
      zitadel: string, email: string, name: string, id: Uuid, findFault: Fault, fault: Fault)
      returns (r: Result<Uuid, Failure>)
      requires UniqueIdentities(db.identities)
      modifies this
      ensures !findFault.NoFault? ==> db == old(db) && r.Err?
      ensures findFault.NoFault? ==>
              match FoundOrCreated(old(db), zitadel, email, name, id, fault)
              case None => db == old(db) && r.Err?
              case Some(after) => db == after && r.Ok? && IdentityByZitadel(after, zitadel) == Some(r.value)
    {
      if !findFault.NoFault? {
        return Err(StoreFailure);
      }
      if FoundOrCreated(db, zitadel, email, name, id, fault).Some? {
        FoundOrCreatedIdentity(db, zitadel, email, name, id, fault);
      }
      var existing := GetByZitadelUserID(zitadel);
      if existing.Some? {
        var row := db.identities[existing.value];
        if row.email != email || row.name != name {
          var updated := UpdateIdentity(zitadel, email, name, fault);
          if updated.Err? { return Err(StoreFailure); }
        }
        return Ok(existing.value);
      }
      r := CreateIdentity(id, Identity(zitadel, email, name), fault);
    }

    // ----- users -----

    method CreateUser(org: string, zitadel: string, email: string, id: Uuid, fault: Fault)
      returns (r: Result<Uuid, Failure>)
      requires UniqueIdentities(db.identities)
      modifies this
      ensures match Committed(Transactions.CreateUser(old(db), org, zitadel, email, id), fault)
              case None => db == old(db) && r.Err?
              case Some(after) => db == after && r == Ok(id)
    {
      if org == "" || fault.BeginFails? || fault.ContextFails? {
        return Err(StoreFailure);
      }
      var identity := GetByZitadelUserID(zitadel);
      var tx := InsertUser(db, id, org, identity, Some(zitadel), email);
      if tx.None? || fault.CommitFails? {
        return Err(StoreFailure);
      }
      db := tx.value;
      r := Ok(id);
    }

    /** Membership and role in one transaction: both rows or neither. */
    method CreateMembershipWithRole(
      org: string, identity: Uuid, email: string, roleName: string, id: Uuid, fault: Fault)
      returns (r: Result<Uuid, Failure>)
      modifies this
      ensures match Committed(Transactions.CreateMembershipWithRole(old(db), org, identity, email, roleName, id), fault)
              case None => db == old(db) && r.Err?
              case Some(after) => db == after && r == Ok(id)
      ensures r.Ok? ==>
                && identity in old(db).identities
                && db == old(db).(users := db.users, userRoles := db.userRoles)
                && db.users == old(db).users[id := User(org, identity, old(db).identities[identity].zitadel, email)]
                && forall ur :: ur in db.userRoles
                           <==> || ur in old(db).userRoles
                                || (ur.org == org && ur.user == id
                                    && ur.role in db.roles && db.roles[ur.role] == Role(org, roleName))
    {
      if Transactions.CreateMembershipWithRole(db, org, identity, email, roleName, id).Some? {
        Grants.MembershipGrantsExactly(db, org, identity, email, roleName, id);
      }
      if org == "" || fault.BeginFails? || fault.ContextFails? {
        return Err(StoreFailure);
      }
      var inserted := InsertUser(db, id, org, Some(identity), ZitadelOf(db, identity), email);
      if inserted.None? {
        return Err(StoreFailure);
      }
      var tx := inserted.value;
      tx := tx.(userRoles := tx.userRoles + NamedRoleRows(tx.roles, org, id, roleName));
      if fault.CommitFails? {
        return Err(StoreFailure);
      }
      db := tx;
      r := Ok(id);
    }

    /** Rows arrive in no particular order; the loop appends each once. */
    method ListMemberships(identity: Uuid) returns (memberships: seq<(Uuid, string)>)
      ensures |memberships| == |MembershipRows(db.users, identity)|
      ensures forall m :: m in memberships <==> m.0 in MembershipRows(db.users, identity) && m.1 == db.users[m.0].org
    {
      memberships := [];
      var rows := MembershipRows(db.users, identity);
      while rows != {}
        invariant rows <= MembershipRows(db.users, identity)
        invariant |memberships| + |rows| == |MembershipRows(db.users, identity)|
        invariant forall m :: m in memberships <==>
                                m.0 in MembershipRows(db.users, identity) && m.0 !in rows && m.1 == db.users[m.0].org
        decreases |rows|
      {
        ghost var some := PickElement(rows);
        var u :| u in rows;
        rows := rows - {u};
        memberships := memberships + [(u, db.users[u].org)];
      }
    }

    /** SELECT ... LIMIT 1 without ORDER BY: any matching row. */
    method GetDefaultMembership(identity: Uuid) returns (answer: Option<Uuid>)
      ensures DefaultMembership(db.users, identity, answer)
    {
      var rows := MembershipRows(db.users, identity);
      if rows == {} {
        return None;
      }
      ghost var some := PickElement(rows);
      var u :| u in rows;
      answer := Some(u);
    }

    // ----- organizations and roles -----

    method RegisterOrganization(orgId: string, name: string, ids: seq<Uuid>, fault: Fault)
      returns (r: Result<string, Failure>)
      requires |ids| == 4
      modifies this
      ensures match Committed(Transactions.RegisterOrganization(old(db), orgId, name, ids), fault)
              case None => db == old(db) && r.Err?
              case Some(after) => db == after && r == Ok(orgId)
    {
      if fault.BeginFails? || fault.ContextFails? || orgId in db.organizations {
        return Err(StoreFailure);
      }
      var tx := db.(organizations := db.organizations[orgId := Organization(orgId, name)]);
      var roles := InsertRoles(tx.roles, orgId, DEFAULT_ROLES, ids);
      if roles.None? {
        return Err(StoreFailure);
      }
      tx := tx.(roles := roles.value);
      var grants := NewRows(tx.rolePermissions, DefaultGrantRows(tx.roles, tx.permissions, orgId));
      tx := tx.(rolePermissions := tx.rolePermissions + grants);
      if fault.CommitFails? {
        return Err(StoreFailure);
      }
      db := tx;
      r := Ok(orgId);
    }

    /** Inserts the role, then its permissions; a wrong row count undoes both. */
    method CreateRole(org: string, name: string, names: seq<string>, id: Uuid, fault: Fault)
      returns (r: Result<Uuid, Failure>)
      modifies this
      ensures match Committed(Transactions.CreateRole(old(db), org, name, names, id), fault)
              case None => db == old(db) && r.Err?
              case Some(after) => db == after && r == Ok(id)
    {
      if org == "" || fault.BeginFails? || fault.ContextFails? {
        return Err(StoreFailure);
      }
      var inserted := InsertRole(db, org, name, id);
      if inserted.None? {
        return Err(StoreFailure);
      }
      var tx := inserted.value;
      if |names| != 0 {
        var added := NewRows(tx.rolePermissions, RequestedRows(tx.permissions, org, id, names));
        tx := tx.(rolePermissions := tx.rolePermissions + added);
        var unique := UniqueStrings.ComputeUnique(names);
        if |added| != |unique| {
          return Err(StoreFailure);
        }
      }
      if fault.CommitFails? {
        return Err(StoreFailure);
      }
      db := tx;
      r := Ok(id);
    }

    method AssignRoleToUser(org: string, user: Uuid, role: Uuid, fault: Fault) returns (r: Result<UserRole, Failure>)
      modifies this
      ensures match Committed(Transactions.AssignRoleToUser(old(db), org, user, role), fault)
              case None => db == old(db) && r.Err?
              case Some(after) => db == after && r == Ok(UserRole(org, user, role))
      ensures r.Ok? <==> && fault.NoFault? && org != "" && UserRole(org, user, role) !in old(db).userRoles
                         && user in old(db).users && role in old(db).roles && old(db).roles[role].org == org
      ensures r.Ok? ==> db == old(db).(userRoles := old(db).userRoles + {UserRole(org, user, role)})
    {
      if org == "" || fault.BeginFails? || fault.ContextFails? {
        return Err(StoreFailure);
      }
      var row := UserRole(org, user, role);
      if row in db.userRoles {
        return Err(StoreFailure);
      }
      if user !in db.users || role !in db.roles || db.roles[role].org != org {
        return Err(StoreFailure);
      }
      if fault.CommitFails? {
        return Err(StoreFailure);
      }
      db := db.(userRoles := db.userRoles + {row});
      r := Ok(row);
    }

    method RemoveRoleFromUser(org: string, user: Uuid, role: Uuid, fault: Fault) returns (r: Result<UserRole, Failure>)
      modifies this
      ensures match Committed(Transactions.RemoveRoleFromUser(old(db), org, user, role), fault)
              case None => db == old(db) && r.Err?
              case Some(after) => db == after && r == Ok(UserRole(org, user, role))
      ensures r.Ok? <==> fault.NoFault? && org != "" && UserRole(org, user, role) in old(db).userRoles
      ensures r.Ok? ==> db == old(db).(userRoles := old(db).userRoles - {UserRole(org, user, role)})
    {
      if org == "" || fault.BeginFails? || fault.ContextFails? {
        return Err(StoreFailure);
      }
      var deleted := set row | row in db.userRoles && row.org == org && row.user == user && row.role == role;
      assert UserRole(org, user, role) in db.userRoles <==> UserRole(org, user, role) in deleted;
      if deleted == {} {
        return Err(StoreFailure);
      }
      if fault.CommitFails? {
        return Err(StoreFailure);
      }
      assert deleted == {UserRole(org, user, role)};
      db := db.(userRoles := db.userRoles - deleted);
      r := Ok(UserRole(org, user, role));
    }

    /** The four-way join: users, user_roles, role_permissions, permissions. */
    method UserHasPermission(org: string, membership: Uuid, permission: string, fault: Fault)
      returns (r: Result<bool, Failure>)
      ensures r.Err? <==> org == "" || !fault.NoFault?
      ensures r.Ok? ==>
                (r.value <==> && membership in db.users && db.users[membership].org == org
                              && exists ur, rp :: Joins(ur, rp, org, membership, permission))
      ensures r.Ok? ==> (r.value <==> Transactions.UserHasPermission(db, org, membership, permission))
    {
      if org == "" || !fault.NoFault? {
        return Err(StoreFailure);
      }
      var found := false;
      if membership in db.users && db.users[membership].org == org {
        var rows := db.userRoles;
        while rows != {} && !found
          invariant rows <= db.userRoles
          invariant found ==> exists ur, rp :: Joins(ur, rp, org, membership, permission)
          invariant !found ==>
                      forall ur, rp :: ur in db.userRoles - rows ==> !Joins(ur, rp, org, membership, permission)
          decreases |rows|
        {
          ghost var some := PickElement(rows);
          var ur :| ur in rows;
          found := Lists(ur, org, membership, permission);
          rows := rows - {ur};
        }
      }
      assert Transactions.UserHasPermission(db, org, membership, permission) <==> found by {
        if Transactions.UserHasPermission(db, org, membership, permission) {
          var q, p :| UserRole(org, membership, q) in db.userRoles && RolePermission(org, q, p) in db.rolePermissions
                      && p in db.permissions && db.permissions[p] == permission;
          assert Joins(UserRole(org, membership, q), RolePermission(org, q, p), org, membership, permission);
        }
        if found {
          var ur, rp :| Joins(ur, rp, org, membership, permission);
          assert ur == UserRole(org, membership, ur.role) && rp == RolePermission(org, ur.role, rp.permission);
        }
      }
      r := Ok(found);
    }

    /** One row of user_roles and one of role_permissions, joined as the query joins them. */
    ghost predicate Joins(ur: UserRole, rp: RolePermission, org: string, membership: Uuid, permission: string)
      reads this
    {
      && ur in db.userRoles && ur.user == membership && ur.org == org
      && rp in db.rolePermissions && rp.role == ur.role && rp.org == ur.org
      && rp.permission in db.permissions && db.permissions[rp.permission] == permission
    }

    /** The inner join, for one row of user_roles. */
    method Lists(ur: UserRole, org: string, membership: Uuid, permission: string) returns (found: bool)
      requires ur in db.userRoles
      ensures found <==> exists rp :: Joins(ur, rp, org, membership, permission)
    {
      found := false;
      if ur.user != membership || ur.org != org {
        return;
      }
      var rows := db.rolePermissions;
      while rows != {}
        invariant rows <= db.rolePermissions
        invariant forall rp :: rp in db.rolePermissions - rows ==> !Joins(ur, rp, org, membership, permission)
        decreases |rows|
      {
        ghost var some := PickElement(rows);
        var rp :| rp in rows;
        if rp.role == ur.role && rp.org == ur.org
           && rp.permission in db.permissions && db.permissions[rp.permission] == permission {
          assert Joins(ur, rp, org, membership, permission);
          return true;
        }
        rows := rows - {rp};
      }
    }

    /** The roles of a tenant with the names of their permissions, each once; the order of the rows is left open. */
    method ListRoles(org: string) returns (roles: seq<(Uuid, string, set<string>)>)
      ensures forall x :: x in roles
                     <==> && x.0 in db.roles && db.roles[x.0] == Role(org, x.1)
                          && x.2 == PermissionsOfRole(db, x.0)
      ensures forall x :: x in roles <==> x in ListedRoles(db, org)
      ensures |roles| == |set q | q in db.roles && db.roles[q].org == org|
    {
      roles := [];
      var rest := set q | q in db.roles && db.roles[q].org == org;
      ghost var all := rest;
      while rest != {}
        invariant rest <= all && |roles| + |rest| == |all|
        invariant forall x :: x in roles
                         <==> && x.0 in all - rest && db.roles[x.0] == Role(org, x.1)
                              && x.2 == PermissionsOfRole(db, x.0)
        decreases |rest|
      {
        ghost var some := PickElement(rest);
        var q :| q in rest;
        var names := NamesListed(q);
        rest := rest - {q};
        roles := roles + [(q, db.roles[q].name, names)];
      }
    }

    /** The LEFT JOINs of ListRoles, for one role. */
    method NamesListed(role: Uuid) returns (names: set<string>)
      requires role in db.roles
      ensures names == PermissionsOfRole(db, role)
    {
      names := {};
      var rows := db.rolePermissions;
      while rows != {}
        invariant rows <= db.rolePermissions
        invariant forall n :: n in names
                         <==> exists p :: RolePermission(db.roles[role].org, role, p) in db.rolePermissions - rows
                                          && p in db.permissions && db.permissions[p] == n
        decreases |rows|
      {
        ghost var some := PickElement(rows);
        var rp :| rp in rows;
        ghost var before, left := names, rows;
        rows := rows - {rp};
        if rp.role == role && rp.org == db.roles[role].org && rp.permission in db.permissions {
          names := names + {db.permissions[rp.permission]};
        }
        forall n ensures n in names
                    <==> exists p :: RolePermission(db.roles[role].org, role, p) in db.rolePermissions - rows
                                     && p in db.permissions && db.permissions[p] == n {
          if n in before {
            var p :| RolePermission(db.roles[role].org, role, p) in db.rolePermissions - left
                     && p in db.permissions && db.permissions[p] == n;
            assert RolePermission(db.roles[role].org, role, p) in db.rolePermissions - rows;
          } else if n in names {
            assert RolePermission(db.roles[role].org, role, rp.permission) == rp;
          }
        }
      }
    }

    // ----- invitations -----

    method CreateInvitation(
      org: string, email: string, roleName: string, token: string, now: int, fault: Fault)
      returns (r: Result<string, Failure>)
      modifies this
      ensures var tx := Transactions.CreateInvitation(old(db), org, email, roleName, token, now + SEVEN_DAYS);
              match Committed(tx, fault)
              case None => db == old(db) && r.Err?
              case Some(after) => db == after && r == Ok(token)
      ensures r == Err(InvalidRole) <==> roleName !in {"owner", "admin", "member", "viewer"}
      ensures r.Ok? <==> && fault.NoFault? && org != "" && token !in old(db).invitations
                         && roleName in {"owner", "admin", "member", "viewer"}
      ensures r.Ok? ==>
                var inv := Invitation(org, email, roleName, now + 7 * 24 * 60 * 60, None);
                db == old(db).(invitations := old(db).invitations[token := inv])
    {
      if !IsDefaultRole(roleName) {
        return Err(InvalidRole);
      }
      if org == "" || !fault.NoFault? || token in db.invitations {
        return Err(StoreFailure);
      }
      db := db.(invitations := db.invitations[token := Invitation(org, email, roleName, now + SEVEN_DAYS, None)]);
      r := Ok(token);
    }

    // ----- sagas -----

    /** Uninterrupted, CompleteOnboarding is a run of the onboarding steps; a fault abandons the attempt. */
    method CompleteOnboarding(
      identity: Uuid, email: string, orgId: string, name: string, ids: seq<Uuid>, id: Uuid,
      checkFault: Fault, registerFault: Fault, joinFault: Fault) returns (r: Result<Uuid, Failure>)
      requires |ids| == 4
      modifies this
      ensures var events := OnboardingEvents(
                identity, email, orgId, name, ids, id, checkFault, registerFault, joinFault);
              var end := Run(Alone(old(db), identity, email), events);
              && db == end.db && (0 in end.onboardings <==> checkFault.NoFault?)
              && (r.Ok? <==> 0 in end.onboardings && end.onboardings[0].pc == Founded(orgId, id))
              && (r == Err(AlreadyOnboarded) <==> 0 in end.onboardings && end.onboardings[0].pc.Refused?)
              && (r.Ok? ==> r.value == id)
      ensures r.Ok? ==>
                && identity in old(db).identities
                && db.organizations == old(db).organizations[orgId := Organization(orgId, name)]
                && db.users == old(db).users[id := User(orgId, identity, old(db).identities[identity].zitadel, email)]
                && forall ur :: ur in db.userRoles
                           <==> || ur in old(db).userRoles
                                || (ur.org == orgId && ur.user == id
                                    && ur.role in db.roles && db.roles[ur.role] == Role(orgId, "owner"))
    {
      if !checkFault.NoFault? {
        return Err(StoreFailure);
      }
      RunThree(Alone(db, identity, email),
               OnboardingEvents(identity, email, orgId, name, ids, id, checkFault, registerFault, joinFault));
      if HasMembership(db.users, identity) {
        return Err(AlreadyOnboarded);
      }
      var org := RegisterOrganization(orgId, name, ids, registerFault);
      if org.Err? {
        return Err(StoreFailure);
      }
      var user := CreateMembershipWithRole(org.value, identity, email, "owner", id, joinFault);
      if user.Err? {
        return Err(StoreFailure);
      }
      r := Ok(user.value);
    }

    /** Uninterrupted, AcceptInvitation is a run of the acceptance steps; a fault abandons the attempt. */
    method AcceptInvitation(
      token: string, identity: Uuid, email: string, readAt: int, id: Uuid, markAt: int,
      readFault: Fault, joinFault: Fault, markFault: Fault) returns (r: Result<Invitation, Failure>)
      modifies this
      ensures var events := AcceptanceEvents(
                token, identity, email, readAt, id, markAt, readFault, joinFault, markFault);
              var end := Run(Alone(old(db), identity, email), events);
              && db == end.db && (0 in end.acceptances <==> readFault.NoFault?)
              && (r.Ok? <==> 0 in end.acceptances && end.acceptances[0].pc.Marked?)
              && (r.Ok? ==> r.value == end.acceptances[0].pc.inv)
              && (r.Err? && r.error != StoreFailure <==> 0 in end.acceptances && end.acceptances[0].pc.Rejected?)
      ensures !readFault.NoFault? ==> r == Err(StoreFailure)
      ensures r == Err(InvitationNotFound) <==> readFault.NoFault? && token !in old(db).invitations
      ensures readFault.NoFault? && token in old(db).invitations ==>
                var inv := old(db).invitations[token];
                && (r == Err(AlreadyAccepted) <==> inv.acceptedAt.Some?)
                && (r == Err(InvitationExpired) <==> inv.acceptedAt.None? && readAt > inv.expiresAt)
                && (r == Err(EmailMismatch) <==> inv.acceptedAt.None? && readAt <= inv.expiresAt && inv.email != email)
      ensures r.Ok? ==>
                && identity in old(db).identities && token in old(db).invitations
                && r.value == old(db).invitations[token]
                && db.invitations == old(db).invitations[token := r.value.(acceptedAt := Some(markAt))]
                && db.users
                   == old(db).users[id := User(r.value.org, identity, old(db).identities[identity].zitadel, email)]
                && forall ur :: ur in db.userRoles
                           <==> || ur in old(db).userRoles
                                || (ur.org == r.value.org && ur.user == id
                                    && ur.role in db.roles && db.roles[ur.role] == Role(r.value.org, r.value.roleName))
    {
      if !readFault.NoFault? {
        return Err(StoreFailure);
      }
      RunThree(Alone(db, identity, email),
               AcceptanceEvents(token, identity, email, readAt, id, markAt, readFault, joinFault, markFault));
      if token !in db.invitations {
        return Err(InvitationNotFound);
      }
      var inv := db.invitations[token];
      if inv.acceptedAt.Some? {
        return Err(AlreadyAccepted);
      }
      if readAt > inv.expiresAt {
        return Err(InvitationExpired);
      }
      if inv.email != email {
        return Err(EmailMismatch);
      }
      var user := CreateMembershipWithRole(inv.org, identity, email, inv.roleName, id, joinFault);
      if user.Err? {
        return Err(StoreFailure);
      }
      if !markFault.NoFault? {
        return Err(StoreFailure);
      }
      if token in db.invitations {
        db := db.(invitations := db.invitations[token := db.invitations[token].(acceptedAt := Some(markAt))]);
      }
      r := Ok(inv);
    }
  }

  /** How long an invitation stays open, in seconds. */
  const SEVEN_DAYS := 7 * 24 * 60 * 60
}
