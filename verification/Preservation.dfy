/** Every step extends the state it starts in and keeps the invariant. */
module Preservation {
  import opened Prelude
  import opened Tables
  import opened UniqueStrings
  import opened Transactions
  import opened Steps
  import opened Invariant

  // ----- Constraints -----

  lemma RegisterOrganizationKeepsConstraints(db: Db, orgId: string, name: string, ids: seq<Uuid>)
    requires |ids| == 4 && Constraints(db) && RegisterOrganization(db, orgId, name, ids).Some?
    ensures Constraints(RegisterOrganization(db, orgId, name, ids).value)
  {
    BootstrapEffect(db.(organizations := db.organizations[orgId := Organization(orgId, name)]), orgId, ids);
  }

  lemma CreateRoleEffect(db: Db, org: string, name: string, names: seq<string>, id: Uuid)
    requires CreateRole(db, org, name, names, id).Some?
    ensures var after := CreateRole(db, org, name, names, id).value;
            && id !in db.roles && !HasRole(db.roles, org, name)
            && after == db.(roles := db.roles[id := Role(org, name)], rolePermissions := after.rolePermissions)
            && db.rolePermissions <= after.rolePermissions
            && (forall rp :: rp in after.rolePermissions && rp !in db.rolePermissions ==>
                               rp.org == org && rp.role == id && rp.permission in db.permissions)
  {
    var tx := InsertRole(db, org, name, id).value;
    var rows := RequestedRows(tx.permissions, org, id, names);
    assert NewRows(tx.rolePermissions, rows) <= rows;
  }

  lemma CreateRoleKeepsConstraints(db: Db, org: string, name: string, names: seq<string>, id: Uuid)
    requires Constraints(db) && CreateRole(db, org, name, names, id).Some?
    ensures Constraints(CreateRole(db, org, name, names, id).value)
  {
    CreateRoleEffect(db, org, name, names, id);
  }

  // ----- Extension -----

  lemma RegisterOrganizationEffect(db: Db, orgId: string, name: string, ids: seq<Uuid>)
    requires |ids| == 4 && UniqueRoles(db.roles) && RegisterOrganization(db, orgId, name, ids).Some?
    ensures var after := RegisterOrganization(db, orgId, name, ids).value;
            && orgId !in db.organizations
            && after == db.(organizations := db.organizations[orgId := Organization(orgId, name)],
                            roles := after.roles, rolePermissions := after.rolePermissions)
            && Kept(db.roles, after.roles)
            && db.rolePermissions <= after.rolePermissions
  {
    BootstrapEffect(db.(organizations := db.organizations[orgId := Organization(orgId, name)]), orgId, ids);
  }

  lemma MembershipExtends(
    db: Db, removed: set<UserRole>, org: string, identity: Uuid, email: string, roleName: string, id: Uuid)
    requires CreateMembershipWithRole(db, org, identity, email, roleName, id).Some?
    ensures DbExtends(db, removed, CreateMembershipWithRole(db, org, identity, email, roleName, id).value, removed)
  {
  }

  lemma OrganizationExtends(db: Db, removed: set<UserRole>, orgId: string, name: string, ids: seq<Uuid>)
    requires |ids| == 4 && UniqueRoles(db.roles) && RegisterOrganization(db, orgId, name, ids).Some?
    ensures DbExtends(db, removed, RegisterOrganization(db, orgId, name, ids).value, removed)
  {
    RegisterOrganizationEffect(db, orgId, name, ids);
  }

  lemma RoleExtends(db: Db, removed: set<UserRole>, org: string, name: string, names: seq<string>, id: Uuid)
    requires CreateRole(db, org, name, names, id).Some?
    ensures DbExtends(db, removed, CreateRole(db, org, name, names, id).value, removed)
  {
    CreateRoleEffect(db, org, name, names, id);
  }

  lemma RowsExtend(db: Db, removed: set<UserRole>, org: string, user: Uuid, role: Uuid)
    ensures DbExtends(db, removed, db, removed)
    ensures var tx := AssignRoleToUser(db, org, user, role); tx.Some? ==> DbExtends(db, removed, tx.value, removed)
    ensures var tx := RemoveRoleFromUser(db, org, user, role);
            tx.Some? ==> DbExtends(db, removed, tx.value, removed + {UserRole(org, user, role)})
  {
  }

  lemma IdentitiesExtend(db: Db, removed: set<UserRole>, id: Uuid, row: Identity)
    ensures var tx := InsertIdentity(db, id, row); tx.Some? ==> DbExtends(db, removed, tx.value, removed)
    ensures var tx := UpdateIdentity(db, row.zitadel, row.email, row.name);
            tx.Some? ==> DbExtends(db, removed, tx.value, removed)
  {
  }

  lemma UserExtends(db: Db, removed: set<UserRole>, org: string, zitadel: string, email: string, id: Uuid)
    ensures var tx := CreateUser(db, org, zitadel, email, id); tx.Some? ==> DbExtends(db, removed, tx.value, removed)
  {
  }

  lemma InvitationExtends(
    db: Db, removed: set<UserRole>, org: string, email: string, roleName: string, token: string, at: int)
    ensures var tx := CreateInvitation(db, org, email, roleName, token, at);
            tx.Some? ==> DbExtends(db, removed, tx.value, removed)
    ensures DbExtends(db, removed, MarkAccepted(db, token, at), removed)
  {
  }

  /** A step that leaves every attempt alone extends the state when it extends the store. */
  lemma StoreStepExtends(s: Sys, t: Sys)
    requires s.onboardings == t.onboardings && s.acceptances == t.acceptances
    requires s.registered <= t.registered && s.publicOrgs <= t.publicOrgs
    requires DbExtends(s.db, s.removed, t.db, t.removed)
    ensures Extends(s, t)
  {
  }

  lemma RequestExtends(s: Sys, e: Request)
    requires UniqueRoles(s.db.roles)
    ensures Extends(s, OnRequest(s, e))
  {
    assert DbExtends(s.db, s.removed, OnRequest(s, e).db, OnRequest(s, e).removed) by {
      RequestExtendsStore(s, e);
    }
    StoreStepExtends(s, OnRequest(s, e));
  }

  lemma RequestExtendsStore(s: Sys, e: Request)
    requires UniqueRoles(s.db.roles)
    ensures DbExtends(s.db, s.removed, OnRequest(s, e).db, OnRequest(s, e).removed)
  {
    RowsExtend(s.db, s.removed, "", 0, 0);
    match e
    case NewIdentity(id, row) => IdentitiesExtend(s.db, s.removed, id, row);
    case ChangeIdentity(zitadel, email, name) =>
      IdentitiesExtend(s.db, s.removed, 0, Identity(zitadel, email, name));
    case PostOrganization(orgId, name, ids) =>
      if |ids| == 4 && RegisterOrganization(s.db, orgId, name, ids).Some? {
        OrganizationExtends(s.db, s.removed, orgId, name, ids);
      }
    case PostUser(caller, id, zitadel, email) =>
      if caller in s.db.users { UserExtends(s.db, s.removed, s.db.users[caller].org, zitadel, email, id); }
    case PostInvitation(caller, email, roleName, token, at) =>
      if caller in s.db.users {
        InvitationExtends(s.db, s.removed, s.db.users[caller].org, email, roleName, token, at);
      }
    case PostRole(caller, name, names, id) =>
      if caller in s.db.users && CreateRole(s.db, s.db.users[caller].org, name, names, id).Some? {
        RoleExtends(s.db, s.removed, s.db.users[caller].org, name, names, id);
      }
    case PostUserRole(caller, user, role) =>
      if caller in s.db.users { RowsExtend(s.db, s.removed, s.db.users[caller].org, user, role); }
    case DeleteUserRole(org, user, role) => RowsExtend(s.db, s.removed, org, user, role);
  }

  lemma OnboardingMoves(onboardings: map<int, Onboarding>, a: int, pc: OnboardingPc)
    requires a in onboardings
    requires !onboardings[a].pc.Founded?
    requires OrgOf(onboardings[a]).Some? ==> OrgOf(onboardings[a].(pc := pc)) == OrgOf(onboardings[a])
    ensures OnboardingsKept(onboardings, onboardings[a := onboardings[a].(pc := pc)])
  {
  }

  lemma OnboardingExtends(s: Sys, a: int, e: OnboardingStep)
    requires UniqueRoles(s.db.roles)
    ensures Extends(s, OnOnboarding(s, a, e))
  {
    RowsExtend(s.db, s.removed, "", 0, 0);
    var t := OnOnboarding(s, a, e);
    if a in s.onboardings && t != s { OnboardingMoves(s.onboardings, a, t.onboardings[a].pc); }
    match e
    case RegisterOrg(orgId, name, ids) =>
      if |ids| == 4 && RegisterOrganization(s.db, orgId, name, ids).Some? {
        OrganizationExtends(s.db, s.removed, orgId, name, ids);
      }
    case JoinAsOwner(id) =>
      if a in s.onboardings && s.onboardings[a].pc.Registered? {
        var o := s.onboardings[a];
        if CreateMembershipWithRole(s.db, o.pc.org, o.identity, o.email, "owner", id).Some? {
          MembershipExtends(s.db, s.removed, o.pc.org, o.identity, o.email, "owner", id);
        }
      }
    case _ =>
  }

  lemma AcceptanceMoves(acceptances: map<int, Acceptance>, a: int, pc: AcceptancePc)
    requires a in acceptances
    requires !acceptances[a].pc.Marked?
    requires InvitationOf(acceptances[a].(pc := pc)) == InvitationOf(acceptances[a])
    requires JoinerOf(acceptances[a]).Some? ==> JoinerOf(acceptances[a].(pc := pc)) == JoinerOf(acceptances[a])
    ensures AcceptancesKept(acceptances, acceptances[a := acceptances[a].(pc := pc)])
  {
  }

  lemma AcceptanceExtends(s: Sys, a: int, e: AcceptanceStep)
    ensures Extends(s, OnAcceptance(s, a, e))
  {
    RowsExtend(s.db, s.removed, "", 0, 0);
    var t := OnAcceptance(s, a, e);
    if a in s.acceptances && t != s { AcceptanceMoves(s.acceptances, a, t.acceptances[a].pc); }
    match e
    case JoinAsInvited(id) =>
      if a in s.acceptances && s.acceptances[a].pc.Read? {
        var c := s.acceptances[a];
        if CreateMembershipWithRole(s.db, c.pc.inv.org, c.identity, c.email, c.pc.inv.roleName, id).Some? {
          MembershipExtends(s.db, s.removed, c.pc.inv.org, c.identity, c.email, c.pc.inv.roleName, id);
        }
      }
    case MarkInvitation(now) =>
      if a in s.acceptances {
        InvitationExtends(s.db, s.removed, "", "", "", s.acceptances[a].token, now);
      }
    case _ =>
  }

  /** Rows are never lost, and what an attempt has achieved it keeps. */
  lemma NextExtends(s: Sys, e: Event)
    requires UniqueRoles(s.db.roles)
    ensures Extends(s, Next(s, e))
  {
    match e
    case Serve(request) => RequestExtends(s, request);
    case Onboard(a, step) => OnboardingExtends(s, a, step);
    case Accept(a, step) => AcceptanceExtends(s, a, step);
  }

  // ----- The store -----

  lemma NewIdentityKeepsStore(db: Db, id: Uuid, row: Identity)
    requires StoreInv(db)
    ensures var tx := InsertIdentity(db, id, row); tx.Some? ==> StoreInv(tx.value)
  {
  }

  lemma ChangedIdentityKeepsStore(db: Db, row: Identity)
    requires StoreInv(db)
    ensures var tx := UpdateIdentity(db, row.zitadel, row.email, row.name); tx.Some? ==> StoreInv(tx.value)
  {
  }

  lemma RegisterOrganizationKeepsStore(db: Db, orgId: string, name: string, ids: seq<Uuid>)
    requires |ids| == 4 && StoreInv(db) && RegisterOrganization(db, orgId, name, ids).Some?
    ensures StoreInv(RegisterOrganization(db, orgId, name, ids).value)
  {
    var base := db.(organizations := db.organizations[orgId := Organization(orgId, name)]);
    var after := RegisterOrganization(db, orgId, name, ids).value;
    BootstrapEffect(base, orgId, ids);
    RegisterOrganizationKeepsConstraints(db, orgId, name, ids);
    forall z, n | z in after.organizations && IsDefaultRole(n) ensures HasRole(after.roles, z, n) {
      if z != orgId {
        assert HasRole(db.roles, z, n);
        var r :| r in db.roles && db.roles[r] == Role(z, n);
        RoleFound(after.roles, r, z, n);
      }
    }
    NewOrganizationGrants(base, orgId, ids);
  }

  lemma NewOrganizationGrants(db: Db, org: string, ids: seq<Uuid>)
    requires |ids| == 4 && UniqueRoles(db.roles) && RolePermissionKeys(db.rolePermissions, db.roles, db.permissions)
    requires ExactGrants(db.roles, db.permissions, db.rolePermissions)
    requires forall r :: r in db.roles ==> db.roles[r].org != org
    requires BootstrapDefaultRolesTx(db, org, ids).Some?
    ensures var after := BootstrapDefaultRolesTx(db, org, ids).value;
            ExactGrants(after.roles, after.permissions, after.rolePermissions)
  {
    BootstrapEffect(db, org, ids);
    var after := BootstrapDefaultRolesTx(db, org, ids).value;
    var rows := DefaultGrantRows(after.roles, db.permissions, org);
    forall r, p | r in after.roles && p in after.permissions && IsDefaultRole(after.roles[r].name)
      ensures RolePermission(after.roles[r].org, r, p) in after.rolePermissions
              <==> DefaultGrant(after.roles[r].name, after.permissions[p])
    {
      var rp := RolePermission(after.roles[r].org, r, p);
      if r in db.roles {
        assert rp in rows ==> rp.org == org;
      } else {
        assert rp in rows <==> DefaultGrant(after.roles[r].name, after.permissions[p]);
        assert forall y :: y in db.rolePermissions ==> y.role != r;
        assert rp in rows ==> rp in NewRows(db.rolePermissions, rows);
      }
    }
  }

  lemma CreateUserKeepsStore(db: Db, org: string, zitadel: string, email: string, id: Uuid)
    requires StoreInv(db) && org in db.organizations && CreateUser(db, org, zitadel, email, id).Some?
    ensures StoreInv(CreateUser(db, org, zitadel, email, id).value)
  {
  }

  lemma MembershipKeepsStore(db: Db, org: string, identity: Uuid, email: string, roleName: string, id: Uuid)
    requires StoreInv(db) && org in db.organizations
    requires CreateMembershipWithRole(db, org, identity, email, roleName, id).Some?
    ensures StoreInv(CreateMembershipWithRole(db, org, identity, email, roleName, id).value)
  {
  }

  lemma CreateRoleKeepsStore(db: Db, org: string, name: string, names: seq<string>, id: Uuid)
    requires StoreInv(db) && org in db.organizations && CreateRole(db, org, name, names, id).Some?
    ensures StoreInv(CreateRole(db, org, name, names, id).value)
  {
    CreateRoleEffect(db, org, name, names, id);
    var after := CreateRole(db, org, name, names, id).value;
    CreateRoleKeepsConstraints(db, org, name, names, id);
    assert !IsDefaultRole(name);
    forall z, n | z in after.organizations && IsDefaultRole(n) ensures HasRole(after.roles, z, n) {
      assert HasRole(db.roles, z, n);
      var r :| r in db.roles && db.roles[r] == Role(z, n);
      RoleFound(after.roles, r, z, n);
    }
  }

  lemma RowsKeepStore(db: Db, org: string, user: Uuid, role: Uuid)
    requires StoreInv(db)
    ensures var tx := AssignRoleToUser(db, org, user, role); tx.Some? ==> StoreInv(tx.value)
    ensures var tx := RemoveRoleFromUser(db, org, user, role); tx.Some? ==> StoreInv(tx.value)
  {
  }

  lemma NewInvitationKeepsStore(db: Db, org: string, email: string, roleName: string, token: string, at: int)
    requires StoreInv(db) && org in db.organizations
    ensures var tx := CreateInvitation(db, org, email, roleName, token, at); tx.Some? ==> StoreInv(tx.value)
  {
  }

  lemma MarkAcceptedKeepsStore(db: Db, token: string, now: int)
    requires StoreInv(db)
    ensures StoreInv(MarkAccepted(db, token, now))
  {
  }

  lemma RequestKeepsStore(s: Sys, e: Request)
    requires StoreInv(s.db)
    ensures StoreInv(OnRequest(s, e).db)
  {
    match e
    case NewIdentity(id, row) => NewIdentityKeepsStore(s.db, id, row);
    case ChangeIdentity(zitadel, email, name) => ChangedIdentityKeepsStore(s.db, Identity(zitadel, email, name));
    case PostOrganization(orgId, name, ids) =>
      if |ids| == 4 && RegisterOrganization(s.db, orgId, name, ids).Some? {
        RegisterOrganizationKeepsStore(s.db, orgId, name, ids);
      }
    case PostUser(caller, id, zitadel, email) =>
      if caller in s.db.users && CreateUser(s.db, s.db.users[caller].org, zitadel, email, id).Some? {
        CreateUserKeepsStore(s.db, s.db.users[caller].org, zitadel, email, id);
      }
    case PostInvitation(caller, email, roleName, token, at) =>
      if caller in s.db.users { NewInvitationKeepsStore(s.db, s.db.users[caller].org, email, roleName, token, at); }
    case PostRole(caller, name, names, id) =>
      if caller in s.db.users && CreateRole(s.db, s.db.users[caller].org, name, names, id).Some? {
        CreateRoleKeepsStore(s.db, s.db.users[caller].org, name, names, id);
      }
    case PostUserRole(caller, user, role) =>
      if caller in s.db.users { RowsKeepStore(s.db, s.db.users[caller].org, user, role); }
    case DeleteUserRole(org, user, role) => RowsKeepStore(s.db, org, user, role);
  }

  lemma OnboardingKeepsStore(s: Sys, a: int, e: OnboardingStep)
    requires StoreInv(s.db) && OnboardingsOk(s)
    ensures StoreInv(OnOnboarding(s, a, e).db)
  {
    match e
    case RegisterOrg(orgId, name, ids) =>
      if |ids| == 4 && RegisterOrganization(s.db, orgId, name, ids).Some? {
        RegisterOrganizationKeepsStore(s.db, orgId, name, ids);
      }
    case JoinAsOwner(id) =>
      if a in s.onboardings && s.onboardings[a].pc.Registered? {
        var o := s.onboardings[a];
        assert OnboardingOk(s, o);
        if CreateMembershipWithRole(s.db, o.pc.org, o.identity, o.email, "owner", id).Some? {
          MembershipKeepsStore(s.db, o.pc.org, o.identity, o.email, "owner", id);
        }
      }
    case _ =>
  }

  lemma AcceptanceKeepsStore(s: Sys, a: int, e: AcceptanceStep)
    requires StoreInv(s.db) && AcceptancesOk(s)
    ensures StoreInv(OnAcceptance(s, a, e).db)
  {
    match e
    case JoinAsInvited(id) =>
      if a in s.acceptances && s.acceptances[a].pc.Read? {
        var c := s.acceptances[a];
        assert AcceptanceOk(s, c);
        if CreateMembershipWithRole(s.db, c.pc.inv.org, c.identity, c.email, c.pc.inv.roleName, id).Some? {
          MembershipKeepsStore(s.db, c.pc.inv.org, c.identity, c.email, c.pc.inv.roleName, id);
        }
      }
    case MarkInvitation(now) =>
      if a in s.acceptances { MarkAcceptedKeepsStore(s.db, s.acceptances[a].token, now); }
    case _ =>
  }

  // ----- The three ways a membership is inserted -----

  /** Whichever statement inserts it, a membership carries its identity's provider id. */
  lemma InsertPathsBridge(
    db: Db, org: string, identity: Uuid, zitadel: string, email: string, roleName: string, id: Uuid)
    requires Bridge(db.users, db.identities)
    ensures var tx := CreateUser(db, org, zitadel, email, id); tx.Some? ==> Bridge(tx.value.users, tx.value.identities)
    ensures var tx := CreateMembership(db, org, identity, email, id);
            tx.Some? ==> Bridge(tx.value.users, tx.value.identities)
    ensures var tx := CreateMembershipWithRole(db, org, identity, email, roleName, id);
            tx.Some? ==> Bridge(tx.value.users, tx.value.identities)
  {
  }

  /** identity_id is not UNIQUE, and yet no statement can give an identity a second membership. */
  lemma SecondMembershipIsRefused(
    db: Db, member: Uuid, org: string, identity: Uuid, email: string, roleName: string, id: Uuid)
    requires StoreInv(db) && member in db.users && db.users[member].identity == identity
    ensures CreateUser(db, org, db.identities[identity].zitadel, email, id).None?
    ensures CreateMembership(db, org, identity, email, id).None?
    ensures CreateMembershipWithRole(db, org, identity, email, roleName, id).None?
  {
    assert db.users[member].zitadel == db.identities[identity].zitadel;
  }
}
