/** Who holds which role, where each row of user_roles comes from, and what a permission check then says. */
module Grants {
  import opened Prelude
  import opened Tables
  import opened Transactions
  import opened Steps
  import opened Invariant
  import opened Preservation
  import opened AttemptPreservation
  import opened Runs

  // ----- One membership -----

  /** The insert commits exactly for a stored identity, a new id, and a provider id and address no user holds. */
  lemma MembershipCommitsExactly(db: Db, org: string, identity: Uuid, email: string, roleName: string, id: Uuid)
    ensures CreateMembershipWithRole(db, org, identity, email, roleName, id).Some?
       <==> && org != "" && identity in db.identities && id !in db.users
            && forall u :: u in db.users ==>
                             db.users[u].zitadel != db.identities[identity].zitadel && db.users[u].email != email
  {
  }

  /** It adds that one user, and of user_roles exactly the rows for the named role of the organization. */
  lemma MembershipGrantsExactly(db: Db, org: string, identity: Uuid, email: string, roleName: string, id: Uuid)
    requires CreateMembershipWithRole(db, org, identity, email, roleName, id).Some?
    ensures var after := CreateMembershipWithRole(db, org, identity, email, roleName, id).value;
            && identity in db.identities
            && after.users == db.users[id := User(org, identity, db.identities[identity].zitadel, email)]
            && after == db.(users := after.users, userRoles := after.userRoles)
            && forall ur :: ur in after.userRoles
                       <==> || ur in db.userRoles
                            || (ur.org == org && ur.user == id
                                && ur.role in db.roles && db.roles[ur.role] == Role(org, roleName))
  {
    var after := CreateMembershipWithRole(db, org, identity, email, roleName, id).value;
    var added := NamedRoleRows(db.roles, org, id, roleName);
    forall ur ensures ur in added
                 <==> ur.org == org && ur.user == id && ur.role in db.roles && db.roles[ur.role] == Role(org, roleName)
    {
      if ur.org == org && ur.user == id && ur.role in db.roles && db.roles[ur.role] == Role(org, roleName) {
        assert ur == UserRole(org, id, ur.role);
      }
    }
  }

  /** Registering a user commits exactly for a stored provider id, under like conditions, and adds that user alone. */
  lemma UserCommitsExactly(db: Db, org: string, zitadel: string, email: string, id: Uuid)
    ensures CreateUser(db, org, zitadel, email, id).Some?
       <==> && org != "" && id !in db.users
            && (exists i :: i in db.identities && db.identities[i].zitadel == zitadel)
            && forall u :: u in db.users ==> db.users[u].zitadel != zitadel && db.users[u].email != email
    ensures CreateUser(db, org, zitadel, email, id).Some? ==>
              exists i :: i in db.identities && db.identities[i].zitadel == zitadel
                          && CreateUser(db, org, zitadel, email, id).value
                             == db.(users := db.users[id := User(org, i, zitadel, email)])
  {
  }

  // ----- Where the rows come from -----

  /** An onboarding that made `user` a founder gave them this role. */
  ghost predicate FromOnboarding(s: Sys, ur: UserRole) {
    exists a :: a in s.onboardings && s.onboardings[a].pc == Founded(ur.org, ur.user)
                && ur.role in s.db.roles && s.db.roles[ur.role] == Role(ur.org, "owner")
  }

  /** An acceptance that made `user` a member gave them the role of the invitation. */
  ghost predicate FromAcceptance(s: Sys, ur: UserRole) {
    exists a :: a in s.acceptances && JoinerOf(s.acceptances[a]) == Some(ur.user)
                && s.acceptances[a].pc.inv.org == ur.org
                && ur.role in s.db.roles && s.db.roles[ur.role] == Role(ur.org, s.acceptances[a].pc.inv.roleName)
  }

  ghost predicate Sourced(s: Sys, ur: UserRole) {
    ur in s.requested || FromOnboarding(s, ur) || FromAcceptance(s, ur)
  }

  ghost predicate AllSourced(s: Sys) {
    forall ur :: ur in s.db.userRoles ==> Sourced(s, ur)
  }

  /** A source stays one. */
  lemma SourceCarries(s: Sys, t: Sys, ur: UserRole)
    requires Kept(s.db.roles, t.db.roles) && s.requested <= t.requested
    requires OnboardingsKept(s.onboardings, t.onboardings) && AcceptancesKept(s.acceptances, t.acceptances)
    requires Sourced(s, ur)
    ensures Sourced(t, ur)
  {
    if FromOnboarding(s, ur) {
      var a :| a in s.onboardings && s.onboardings[a].pc == Founded(ur.org, ur.user)
               && ur.role in s.db.roles && s.db.roles[ur.role] == Role(ur.org, "owner");
      assert a in t.onboardings && t.onboardings[a].pc == s.onboardings[a].pc;
      assert FromOnboarding(t, ur);
    } else if FromAcceptance(s, ur) {
      var a :| a in s.acceptances && JoinerOf(s.acceptances[a]) == Some(ur.user)
               && s.acceptances[a].pc.inv.org == ur.org
               && ur.role in s.db.roles && s.db.roles[ur.role] == Role(ur.org, s.acceptances[a].pc.inv.roleName);
      assert a in t.acceptances && JoinerOf(t.acceptances[a]) == Some(ur.user);
      assert InvitationOf(t.acceptances[a]) == InvitationOf(s.acceptances[a]);
      assert FromAcceptance(t, ur);
    }
  }

  /** Requests add no row but the one that POST /users/{id}/roles names. */
  lemma RequestAssigns(s: Sys, e: Request)
    requires UniqueRoles(s.db.roles)
    ensures var t := OnRequest(s, e);
            && s.requested <= t.requested
            && forall ur :: ur in t.db.userRoles ==> ur in s.db.userRoles || ur in t.requested
  {
    if OnRequest(s, e) != s {
      match e
      case PostOrganization(orgId, name, ids) => RegisterOrganizationEffect(s.db, orgId, name, ids);
      case PostRole(caller, name, names, id) => CreateRoleEffect(s.db, s.db.users[caller].org, name, names, id);
      case _ =>
    }
  }

  lemma OnboardingSources(s: Sys, a: int, e: OnboardingStep, ur: UserRole)
    requires UniqueRoles(s.db.roles)
    requires var t := OnOnboarding(s, a, e); ur in t.db.userRoles && ur !in s.db.userRoles
    ensures FromOnboarding(OnOnboarding(s, a, e), ur)
  {
    var t := OnOnboarding(s, a, e);
    if e.RegisterOrg? {
      RegisterOrganizationEffect(s.db, e.orgId, e.name, e.ids);
      assert false;
    } else {
      var o := s.onboardings[a];
      MembershipGrantsExactly(s.db, o.pc.org, o.identity, o.email, "owner", e.id);
      assert t.onboardings[a].pc == Founded(o.pc.org, e.id);
    }
  }

  lemma AcceptanceSources(s: Sys, a: int, e: AcceptanceStep, ur: UserRole)
    requires var t := OnAcceptance(s, a, e); ur in t.db.userRoles && ur !in s.db.userRoles
    ensures FromAcceptance(OnAcceptance(s, a, e), ur)
  {
    var t := OnAcceptance(s, a, e);
    var c := s.acceptances[a];
    MembershipGrantsExactly(s.db, c.pc.inv.org, c.identity, c.email, c.pc.inv.roleName, e.id);
    assert t.acceptances[a].pc == Joined(c.pc.inv, e.id);
  }

  lemma StepAssigns(s: Sys, e: Event)
    requires UniqueRoles(s.db.roles)
    ensures s.requested <= Next(s, e).requested
    ensures forall ur :: ur in Next(s, e).db.userRoles && ur !in s.db.userRoles ==> Sourced(Next(s, e), ur)
  {
    forall ur | ur in Next(s, e).db.userRoles && ur !in s.db.userRoles ensures Sourced(Next(s, e), ur) {
      match e
      case Serve(request) => RequestAssigns(s, request);
      case Onboard(a, step) => OnboardingSources(s, a, step, ur);
      case Accept(a, step) => AcceptanceSources(s, a, step, ur);
    }
    if e.Serve? { RequestAssigns(s, e.request); }
  }

  lemma NextKeepsSources(s: Sys, e: Event)
    requires UniqueRoles(s.db.roles) && AllSourced(s)
    ensures AllSourced(Next(s, e))
  {
    var t := Next(s, e);
    NextExtends(s, e);
    StepAssigns(s, e);
    forall ur | ur in t.db.userRoles ensures Sourced(t, ur) {
      if ur in s.db.userRoles { SourceCarries(s, t, ur); }
    }
  }

  lemma {:induction false} RunKeepsSources(s: Sys, events: seq<Event>)
    requires Inv(s) && AllSourced(s)
    ensures AllSourced(Run(s, events))
    decreases |events|
  {
    if events != [] {
      NextKeepsInv(s, events[0]);
      assert AllSourced(Next(s, events[0])) by { NextKeepsSources(s, events[0]); }
      RunKeepsSources(Next(s, events[0]), events[1..]);
    }
  }

  /**
   * In every reachable state each row of user_roles was asked for by name, or is
   * the owner role an onboarding gave its founder, or the role an invitation
   * gave whoever joined with it.
   */
  lemma EveryGrantHasASource(s: Sys, ur: UserRole)
    requires Reachable(s) && ur in s.db.userRoles
    ensures ur in s.requested || FromOnboarding(s, ur) || FromAcceptance(s, ur)
  {
    var start, events :| Fresh(start) && s == Run(start, events);
    FreshInv(start);
    assert AllSourced(start);
    RunKeepsSources(start, events);
  }

  /** Whoever joined holds the role of their invitation and, apart from what they were assigned, no other. */
  lemma InvitedHoldOnlyTheirRole(s: Sys, a: int, ur: UserRole)
    requires Reachable(s) && a in s.acceptances && JoinerOf(s.acceptances[a]) == Some(ur.user)
    requires ur in s.db.userRoles && ur !in s.requested
    ensures ur.org == s.acceptances[a].pc.inv.org
    ensures ur.role in s.db.roles && s.db.roles[ur.role] == Role(ur.org, s.acceptances[a].pc.inv.roleName)
  {
    EveryGrantHasASource(s, ur);
    ReachableSources(s);
    assert JoinedBy(s.acceptances, ur.user);
    assert FromOnboarding(s, ur) ==> FoundedBy(s.onboardings, ur.user) by { FoundersAreFounded(s, ur); }
    var b :| b in s.acceptances && JoinerOf(s.acceptances[b]) == Some(ur.user)
             && s.acceptances[b].pc.inv.org == ur.org
             && ur.role in s.db.roles && s.db.roles[ur.role] == Role(ur.org, s.acceptances[b].pc.inv.roleName);
    assert a == b;
  }

  lemma FoundersAreFounded(s: Sys, ur: UserRole)
    ensures FromOnboarding(s, ur) ==> FoundedBy(s.onboardings, ur.user)
    ensures FromAcceptance(s, ur) ==> JoinedBy(s.acceptances, ur.user)
  {
    if FromOnboarding(s, ur) {
      var b :| b in s.onboardings && s.onboardings[b].pc == Founded(ur.org, ur.user);
      assert FounderOf(s.onboardings[b]) == Some(ur.user);
    }
  }

  /** Whoever a member registered holds only what they were assigned. */
  lemma RegisteredHoldOnlyAssigned(s: Sys, ur: UserRole)
    requires Reachable(s) && ur.user in s.registered && ur in s.db.userRoles
    ensures ur in s.requested
  {
    EveryGrantHasASource(s, ur);
    ReachableSources(s);
    FoundersAreFounded(s, ur);
  }

  // ----- What a check says -----

  /** A check passes exactly through a role the member holds in the organization that is listed with the name. */
  lemma CheckPassesExactly(db: Db, org: string, member: Uuid, permission: string)
    requires UserRoleKeys(db.userRoles, db.roles, db.users)
    ensures UserHasPermission(db, org, member, permission)
       <==> && member in db.users && db.users[member].org == org
            && exists r :: UserRole(org, member, r) in db.userRoles && r in db.roles && db.roles[r].org == org
                           && permission in PermissionsOfRole(db, r)
  {
    if UserHasPermission(db, org, member, permission) {
      var r, p :| UserRole(org, member, r) in db.userRoles && RolePermission(org, r, p) in db.rolePermissions
                  && p in db.permissions && db.permissions[p] == permission;
      assert r in db.roles && db.roles[r].org == org;
      assert permission in PermissionsOfRole(db, r);
    }
    if r :| UserRole(org, member, r) in db.userRoles && r in db.roles && db.roles[r].org == org
            && permission in PermissionsOfRole(db, r) {
      var p :| p in db.permissions && RolePermission(org, r, p) in db.rolePermissions
               && db.permissions[p] == permission;
    }
  }

  /** Every row the member holds in the organization is for a role of that name. */
  ghost predicate HoldsOnly(db: Db, org: string, member: Uuid, roleName: string) {
    forall r :: UserRole(org, member, r) in db.userRoles ==> r in db.roles && db.roles[r] == Role(org, roleName)
  }

  ghost predicate HoldsSome(db: Db, org: string, member: Uuid) {
    exists r :: UserRole(org, member, r) in db.userRoles
  }

  /** A member with one kind of default role passes a check exactly for the known names that role stands for. */
  lemma OneRolePassesExactly(db: Db, org: string, member: Uuid, roleName: string, permission: string)
    requires StoreInv(db) && member in db.users && db.users[member].org == org && HoldsOnly(db, org, member, roleName)
    ensures var passes := UserHasPermission(db, org, member, permission);
            var might := HoldsSome(db, org, member) && permission in db.permissions.Values;
            && (roleName == "owner" ==> (passes <==> might))
            && (roleName == "admin" ==> (passes <==> might && permission != "billing.write"))
            && (roleName == "member" ==> (passes <==> might && permission in {"users.read", "settings.read"}))
            && (roleName == "viewer" ==>
                  (passes <==> might && permission in {"users.read", "billing.read", "audit.read", "settings.read"}))
  {
    CheckPassesExactly(db, org, member, permission);
    forall r | r in db.roles && UserRole(org, member, r) in db.userRoles
      ensures db.roles[r] == Role(org, roleName)
      ensures roleName == "owner" ==> PermissionsOfRole(db, r) == db.permissions.Values
      ensures roleName == "admin" ==> PermissionsOfRole(db, r) == db.permissions.Values - {"billing.write"}
      ensures roleName == "member" ==>
                PermissionsOfRole(db, r) == db.permissions.Values * {"users.read", "settings.read"}
      ensures roleName == "viewer" ==>
                PermissionsOfRole(db, r)
                == db.permissions.Values * {"users.read", "billing.read", "audit.read", "settings.read"}
    {
      ExactGrantsInWords(db, r);
    }
  }

  /**
   * From end to end: in every reachable state, whoever joined with an invitation
   * and was assigned nothing else passes exactly the checks that the invited
   * role stands for, as long as they still hold it.
   */
  lemma InvitedPassExactly(s: Sys, a: int, permission: string)
    requires Reachable(s) && a in s.acceptances && JoinerOf(s.acceptances[a]).Some?
    requires forall ur :: ur in s.requested ==> ur.user != JoinerOf(s.acceptances[a]).value
    ensures var inv, user := s.acceptances[a].pc.inv, JoinerOf(s.acceptances[a]).value;
            var passes := UserHasPermission(s.db, inv.org, user, permission);
            var might := HoldsSome(s.db, inv.org, user) && permission in s.db.permissions.Values;
            && (inv.roleName == "owner" ==> (passes <==> might))
            && (inv.roleName == "admin" ==> (passes <==> might && permission != "billing.write"))
            && (inv.roleName == "member" ==> (passes <==> might && permission in {"users.read", "settings.read"}))
            && (inv.roleName == "viewer" ==>
                  (passes <==> might && permission in {"users.read", "billing.read", "audit.read", "settings.read"}))
  {
    var inv, user := s.acceptances[a].pc.inv, JoinerOf(s.acceptances[a]).value;
    assert AcceptanceOk(s, s.acceptances[a]) by { ReachableAttempts(s); }
    forall r | UserRole(inv.org, user, r) in s.db.userRoles
      ensures r in s.db.roles && s.db.roles[r] == Role(inv.org, inv.roleName)
    {
      InvitedHoldOnlyTheirRole(s, a, UserRole(inv.org, user, r));
    }
    ReachableStore(s);
    OneRolePassesExactly(s.db, inv.org, user, inv.roleName, permission);
  }

  /** Whoever a member registered passes nothing, in any organization, until a role is assigned to them. */
  lemma RegisteredPassNothing(s: Sys, user: Uuid, org: string, permission: string)
    requires Reachable(s) && user in s.registered
    requires forall ur :: ur in s.requested ==> ur.user != user
    ensures !UserHasPermission(s.db, org, user, permission)
  {
    if UserHasPermission(s.db, org, user, permission) {
      var r :| UserRole(org, user, r) in s.db.userRoles;
      RegisteredHoldOnlyAssigned(s, UserRole(org, user, r));
      assert false;
    }
  }

  // ----- What bootstrapping grants -----

  /** A role as it was, or one that is new and lists nothing yet. */
  ghost function ListedBefore(db: Db, role: Uuid): set<string> {
    if role in db.roles then PermissionsOfRole(db, role) else {}
  }

  lemma BootstrapListing(db: Db, org: string, ids: seq<Uuid>, role: Uuid, n: string)
    requires |ids| == 4 && UniqueRoles(db.roles) && BootstrapDefaultRolesTx(db, org, ids).Some?
    requires RolePermissionKeys(db.rolePermissions, db.roles, db.permissions)
    requires role in BootstrapDefaultRolesTx(db, org, ids).value.roles
    ensures var after := BootstrapDefaultRolesTx(db, org, ids).value;
            n in PermissionsOfRole(after, role)
            <==> || n in ListedBefore(db, role)
                 || (after.roles[role].org == org && IsDefaultRole(after.roles[role].name)
                     && n in db.permissions.Values && DefaultGrant(after.roles[role].name, n))
  {
    BootstrapEffect(db, org, ids);
    var after := BootstrapDefaultRolesTx(db, org, ids).value;
    var rows, own := DefaultGrantRows(after.roles, db.permissions, org), after.roles[role].org;
    if n in db.permissions.Values && own == org && IsDefaultRole(after.roles[role].name)
       && DefaultGrant(after.roles[role].name, n) {
      var p := PickKey(db.permissions, n);
      var row := RolePermission(org, role, p);
      assert row in rows;
      if y :| y in db.rolePermissions && SamePair(row, y) {
        assert y == row;
      } else {
        assert row in NewRows(db.rolePermissions, rows);
      }
      assert row in after.rolePermissions;
    }
    if n in ListedBefore(db, role) {
      var p :| p in db.permissions && RolePermission(db.roles[role].org, role, p) in db.rolePermissions
               && db.permissions[p] == n;
      assert RolePermission(own, role, p) in after.rolePermissions;
    }
    if n in PermissionsOfRole(after, role) {
      var p :| p in db.permissions && RolePermission(own, role, p) in after.rolePermissions && db.permissions[p] == n;
      assert RolePermission(own, role, p) in db.rolePermissions || RolePermission(own, role, p) in rows;
    }
  }

  lemma ListingInWords(listed: set<string>, before: set<string>, known: set<string>, called: string, gains: bool)
    requires forall n :: n in listed <==> n in before || (gains && n in known && DefaultGrant(called, n))
    ensures gains && called == "owner" ==> listed == before + known
    ensures gains && called == "admin" ==> listed == before + (known - {"billing.write"})
    ensures gains && called == "member" ==> listed == before + known * {"users.read", "settings.read"}
    ensures gains && called == "viewer" ==>
              listed == before + known * {"users.read", "billing.read", "audit.read", "settings.read"}
    ensures !gains ==> listed == before
  {
  }

  /** The four default roles of the tenant gain exactly their documented permissions; no other role gains any. */
  lemma BootstrapListsExactly(db: Db, org: string, ids: seq<Uuid>, role: Uuid)
    requires |ids| == 4 && UniqueRoles(db.roles) && BootstrapDefaultRolesTx(db, org, ids).Some?
    requires RolePermissionKeys(db.rolePermissions, db.roles, db.permissions)
    requires role in BootstrapDefaultRolesTx(db, org, ids).value.roles
    ensures var after := BootstrapDefaultRolesTx(db, org, ids).value;
            var own, name, before := after.roles[role].org, after.roles[role].name, ListedBefore(db, role);
            var listed, known := PermissionsOfRole(after, role), db.permissions.Values;
            && (own == org && name == "owner" ==> listed == before + known)
            && (own == org && name == "admin" ==> listed == before + (known - {"billing.write"}))
            && (own == org && name == "member" ==> listed == before + known * {"users.read", "settings.read"})
            && (own == org && name == "viewer" ==>
                  listed == before + known * {"users.read", "billing.read", "audit.read", "settings.read"})
            && (own != org || name !in {"owner", "admin", "member", "viewer"} ==> listed == before)
  {
    var after := BootstrapDefaultRolesTx(db, org, ids).value;
    var gains := after.roles[role].org == org && IsDefaultRole(after.roles[role].name);
    forall n ensures n in PermissionsOfRole(after, role)
                     <==> || n in ListedBefore(db, role)
                          || (gains && n in db.permissions.Values && DefaultGrant(after.roles[role].name, n)) {
      BootstrapListing(db, org, ids, role, n);
    }
    ListingInWords(
      PermissionsOfRole(after, role), ListedBefore(db, role), db.permissions.Values, after.roles[role].name, gains);
  }

  /** With new ids a registration commits exactly if the organization is new. */
  lemma RegistrationCommitsExactly(db: Db, orgId: string, name: string, ids: seq<Uuid>)
    requires |ids| == 4
    requires forall i :: 0 <= i < 4 ==> ids[i] !in db.roles
    requires forall i, j :: 0 <= i < j < 4 ==> ids[i] != ids[j]
    ensures RegisterOrganization(db, orgId, name, ids).Some? <==> orgId !in db.organizations
  {
    InsertRolesCommits(db.roles, orgId, DEFAULT_ROLES, ids);
  }

  /** A registration leaves the organization with the four default roles, each once, listing what is documented. */
  lemma RegistrationGrantsExactly(db: Db, orgId: string, name: string, ids: seq<Uuid>, role: Uuid)
    requires |ids| == 4 && StoreInv(db) && RegisterOrganization(db, orgId, name, ids).Some?
    requires role in RegisterOrganization(db, orgId, name, ids).value.roles
    ensures var after := RegisterOrganization(db, orgId, name, ids).value;
            var own, called := after.roles[role].org, after.roles[role].name;
            var listed, known := PermissionsOfRole(after, role), db.permissions.Values;
            && after.organizations == db.organizations[orgId := Organization(orgId, name)]
            && (own == orgId ==> role !in db.roles && called in {"owner", "admin", "member", "viewer"})
            && (own == orgId && called == "owner" ==> listed == known)
            && (own == orgId && called == "admin" ==> listed == known - {"billing.write"})
            && (own == orgId && called == "member" ==> listed == known * {"users.read", "settings.read"})
            && (own == orgId && called == "viewer" ==>
                  listed == known * {"users.read", "billing.read", "audit.read", "settings.read"})
            && (own != orgId ==> role in db.roles && listed == PermissionsOfRole(db, role))
    ensures forall n :: n in {"owner", "admin", "member", "viewer"} ==>
                          HasRole(RegisterOrganization(db, orgId, name, ids).value.roles, orgId, n)
  {
    var base := db.(organizations := db.organizations[orgId := Organization(orgId, name)]);
    BootstrapEffect(base, orgId, ids);
    BootstrapListsExactly(base, orgId, ids, role);
  }
}
