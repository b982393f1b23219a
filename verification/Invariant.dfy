/** The inductive invariant of the routed system, and what no step ever undoes. */
module Invariant {
  import opened Prelude
  import opened Tables
  import opened Transactions
  import opened Steps

  // ----- Reading an attempt -----

  function OrgOf(o: Onboarding): Option<string> {
    match o.pc
    case Registered(org) => Some(org)
    case Founded(org, _) => Some(org)
    case Abandoned(left) => left
    case _ => None
  }

  function FounderOf(o: Onboarding): Option<Uuid> {
    if o.pc.Founded? then Some(o.pc.user) else None
  }

  function InvitationOf(c: Acceptance): Option<Invitation> {
    if c.pc.Rejected? then None else Some(c.pc.inv)
  }

  function JoinerOf(c: Acceptance): Option<Uuid> {
    match c.pc
    case Joined(_, user) => Some(user)
    case Marked(_, user) => Some(user)
    case Dropped(_, left) => left
    case _ => None
  }

  // ----- The parts of the invariant -----

  /** The identity bridge: a membership's zitadel_user_id is its identity's. */
  ghost predicate Bridge(users: map<Uuid, User>, identities: map<Uuid, Identity>) {
    forall u :: u in users ==>
                  users[u].identity in identities && identities[users[u].identity].zitadel == users[u].zitadel
  }

  /** Every organization id in use is registered, though no foreign key says so. */
  ghost predicate Tenancy(db: Db) {
    && (forall z :: z in db.organizations ==> db.organizations[z].organizationId == z)
    && (forall u :: u in db.users ==> db.users[u].org in db.organizations && db.users[u].org != "")
    && (forall r :: r in db.roles ==> db.roles[r].org in db.organizations)
    && (forall t :: t in db.invitations ==>
                      db.invitations[t].org in db.organizations && IsDefaultRole(db.invitations[t].roleName))
  }

  ghost predicate DefaultRoles(organizations: map<string, Organization>, roles: map<Uuid, Role>) {
    forall z, n :: z in organizations && IsDefaultRole(n) ==> HasRole(roles, z, n)
  }

  /** A default role holds its documented permissions, no fewer and no more. */
  ghost predicate ExactGrants(
    roles: map<Uuid, Role>, permissions: map<Uuid, string>, rolePermissions: set<RolePermission>)
  {
    forall r, p :: r in roles && p in permissions && IsDefaultRole(roles[r].name) ==>
                     (RolePermission(roles[r].org, r, p) in rolePermissions
                      <==> DefaultGrant(roles[r].name, permissions[p]))
  }

  ghost predicate Granted(s: Sys, org: string, user: Uuid, name: string) {
    exists r :: r in s.db.roles && s.db.roles[r] == Role(org, name)
                && UserRole(org, user, r) in s.db.userRoles + s.removed
  }

  /** `user` is the membership of `identity` in `org`, with the role unless it was removed. */
  ghost predicate Member(s: Sys, user: Uuid, org: string, identity: Uuid, email: string, name: string) {
    && user in s.db.users
    && s.db.users[user].org == org && s.db.users[user].identity == identity && s.db.users[user].email == email
    && Granted(s, org, user, name)
  }

  /** The row read for this token is still there, up to its accepted_at. */
  ghost predicate Stands(invitations: map<string, Invitation>, token: string, inv: Invitation) {
    token in invitations && invitations[token].(acceptedAt := None) == inv.(acceptedAt := None)
  }

  /** A session's identity is a stored one, then and ever after. */
  ghost predicate SessionsOk(s: Sys) {
    forall p :: p in s.sessions ==> p.0 in s.db.identities
  }

  ghost predicate AcceptanceOk(s: Sys, c: Acceptance) {
    && c.identity in s.db.identities
    && (InvitationOf(c).Some? ==> c.pc.inv.email == c.email && Stands(s.db.invitations, c.token, c.pc.inv))
    && (JoinerOf(c).Some? ==>
          Member(s, JoinerOf(c).value, c.pc.inv.org, c.identity, c.email, c.pc.inv.roleName))
  }

  ghost predicate AcceptancesOk(s: Sys) {
    forall a :: a in s.acceptances ==> AcceptanceOk(s, s.acceptances[a])
  }

  ghost predicate MarkedBy(acceptances: map<int, Acceptance>, token: string) {
    exists a :: a in acceptances && acceptances[a].token == token && acceptances[a].pc.Marked?
  }

  /** Only an acceptance that went through every step sets accepted_at. */
  ghost predicate AcceptedOk(invitations: map<string, Invitation>, acceptances: map<int, Acceptance>) {
    forall t :: t in invitations && invitations[t].acceptedAt.Some? ==> MarkedBy(acceptances, t)
  }

  ghost predicate OnboardingOk(s: Sys, o: Onboarding) {
    && o.identity in s.db.identities
    && (OrgOf(o).Some? ==> OrgOf(o).value in s.db.organizations)
    && (o.pc.Founded? ==> Member(s, o.pc.user, o.pc.org, o.identity, o.email, "owner"))
  }

  ghost predicate OnboardingsOk(s: Sys) {
    forall a :: a in s.onboardings ==> OnboardingOk(s, s.onboardings[a])
  }

  ghost predicate OwnOrgs(onboardings: map<int, Onboarding>) {
    forall a, b | a in onboardings && b in onboardings
                   && OrgOf(onboardings[a]).Some? && OrgOf(onboardings[a]) == OrgOf(onboardings[b])
      :: a == b
  }

  ghost predicate OwnFounders(onboardings: map<int, Onboarding>) {
    forall a, b | a in onboardings && b in onboardings
                   && FounderOf(onboardings[a]).Some? && FounderOf(onboardings[a]) == FounderOf(onboardings[b])
      :: a == b
  }

  ghost predicate OwnJoiners(acceptances: map<int, Acceptance>) {
    forall a, b | a in acceptances && b in acceptances
                   && JoinerOf(acceptances[a]).Some? && JoinerOf(acceptances[a]) == JoinerOf(acceptances[b])
      :: a == b
  }

  ghost predicate CreatedBy(onboardings: map<int, Onboarding>, org: string) {
    exists a :: a in onboardings && OrgOf(onboardings[a]) == Some(org)
  }

  ghost predicate FoundedBy(onboardings: map<int, Onboarding>, user: Uuid) {
    exists a :: a in onboardings && FounderOf(onboardings[a]) == Some(user)
  }

  ghost predicate JoinedBy(acceptances: map<int, Acceptance>, user: Uuid) {
    exists a :: a in acceptances && JoinerOf(acceptances[a]) == Some(user)
  }

  /** Every organization has exactly one source. */
  ghost predicate OrgSources(s: Sys) {
    && OwnOrgs(s.onboardings)
    && (forall z :: z in s.db.organizations <==> z in s.publicOrgs || CreatedBy(s.onboardings, z))
    && (forall z :: z in s.publicOrgs ==> !CreatedBy(s.onboardings, z))
  }

  /** Every membership has exactly one source. */
  ghost predicate UserSources(s: Sys) {
    && OwnFounders(s.onboardings) && OwnJoiners(s.acceptances)
    && (forall u :: u in s.db.users <==>
                    u in s.registered || FoundedBy(s.onboardings, u) || JoinedBy(s.acceptances, u))
    && (forall u :: u in s.registered ==> !FoundedBy(s.onboardings, u) && !JoinedBy(s.acceptances, u))
    && (forall u :: FoundedBy(s.onboardings, u) ==> !JoinedBy(s.acceptances, u))
  }

  ghost predicate HasFounder(onboardings: map<int, Onboarding>, org: string) {
    exists a :: a in onboardings && onboardings[a].pc.Founded? && onboardings[a].pc.org == org
  }

  /** Whoever is a member or invited belongs to an organization that an onboarding founded. */
  ghost predicate Founders(s: Sys) {
    && (forall u :: u in s.db.users ==> HasFounder(s.onboardings, s.db.users[u].org))
    && (forall t :: t in s.db.invitations ==> HasFounder(s.onboardings, s.db.invitations[t].org))
  }

  /** The part of the invariant that speaks of the store alone. */
  ghost predicate StoreInv(db: Db) {
    && Constraints(db)
    && Bridge(db.users, db.identities)
    && Tenancy(db)
    && DefaultRoles(db.organizations, db.roles)
    && ExactGrants(db.roles, db.permissions, db.rolePermissions)
  }

  ghost predicate Inv(s: Sys) {
    && StoreInv(s.db)
    && SessionsOk(s)
    && AcceptancesOk(s)
    && AcceptedOk(s.db.invitations, s.acceptances)
    && OnboardingsOk(s)
    && OrgSources(s)
    && UserSources(s)
    && Founders(s)
  }

  // ----- What no step undoes -----

  ghost predicate Kept<K, V>(before: map<K, V>, after: map<K, V>) {
    forall k :: k in before ==> k in after && after[k] == before[k]
  }

  ghost predicate IdentitiesKept(before: map<Uuid, Identity>, after: map<Uuid, Identity>) {
    forall i :: i in before ==> i in after && after[i].zitadel == before[i].zitadel
  }

  ghost predicate InvitationsKept(before: map<string, Invitation>, after: map<string, Invitation>) {
    forall t :: t in before ==>
                  && Stands(after, t, before[t])
                  && (before[t].acceptedAt.Some? ==> after[t].acceptedAt.Some?)
  }

  ghost predicate OnboardingsKept(before: map<int, Onboarding>, after: map<int, Onboarding>) {
    forall a :: a in before ==>
                  && a in after
                  && after[a].identity == before[a].identity && after[a].email == before[a].email
                  && (OrgOf(before[a]).Some? ==> OrgOf(after[a]) == OrgOf(before[a]))
                  && (before[a].pc.Founded? ==> after[a].pc == before[a].pc)
  }

  ghost predicate AcceptancesKept(before: map<int, Acceptance>, after: map<int, Acceptance>) {
    forall a :: a in before ==>
                  && a in after
                  && after[a].token == before[a].token && after[a].identity == before[a].identity
                  && after[a].email == before[a].email
                  && InvitationOf(after[a]) == InvitationOf(before[a])
                  && (JoinerOf(before[a]).Some? ==> JoinerOf(after[a]) == JoinerOf(before[a]))
                  && (before[a].pc.Marked? ==> after[a].pc == before[a].pc)
  }

  /** Between two stores; `removed` and `removedAfter` are the user_roles rows deleted so far. */
  ghost predicate DbExtends(db: Db, removed: set<UserRole>, after: Db, removedAfter: set<UserRole>) {
    && IdentitiesKept(db.identities, after.identities)
    && Kept(db.organizations, after.organizations)
    && Kept(db.users, after.users)
    && db.permissions == after.permissions
    && Kept(db.roles, after.roles)
    && db.rolePermissions <= after.rolePermissions
    && db.userRoles + removed <= after.userRoles + removedAfter
    && removed <= removedAfter
    && InvitationsKept(db.invitations, after.invitations)
  }

  ghost predicate Extends(s: Sys, t: Sys) {
    && DbExtends(s.db, s.removed, t.db, t.removed)
    && OnboardingsKept(s.onboardings, t.onboardings)
    && AcceptancesKept(s.acceptances, t.acceptances)
    && s.registered <= t.registered && s.publicOrgs <= t.publicOrgs
  }

  lemma ExtendsTransitive(s: Sys, t: Sys, u: Sys)
    requires Extends(s, t) && Extends(t, u)
    ensures Extends(s, u)
  {
  }

  // ----- InsertRoles -----

  lemma RoleFound(roles: map<Uuid, Role>, r: Uuid, org: string, name: string)
    requires r in roles && roles[r] == Role(org, name)
    ensures HasRole(roles, org, name)
  {
  }

  /** What the bootstrap INSERT into roles does, whatever rows it finds. */
  lemma {:induction false} InsertRolesEffect(roles: map<Uuid, Role>, org: string, names: seq<string>, ids: seq<Uuid>)
    requires |names| == |ids| && InsertRoles(roles, org, names, ids).Some?
    requires UniqueRoles(roles)
    ensures var after := InsertRoles(roles, org, names, ids).value;
            && Kept(roles, after) && UniqueRoles(after)
            && (forall n :: n in names ==> HasRole(after, org, n))
            && (forall r :: r in after && r !in roles ==> after[r].org == org && after[r].name in names)
    decreases |names|
  {
    if names != [] {
      var after := InsertRoles(roles, org, names, ids).value;
      if HasRole(roles, org, names[0]) {
        InsertRolesEffect(roles, org, names[1..], ids[1..]);
        var r :| r in roles && roles[r] == Role(org, names[0]);
        RoleFound(after, r, org, names[0]);
      } else {
        var one := roles[ids[0] := Role(org, names[0])];
        InsertRolesEffect(one, org, names[1..], ids[1..]);
        assert ids[0] in one;
        RoleFound(after, ids[0], org, names[0]);
      }
      assert names == [names[0]] + names[1..];
    }
  }

  /** It goes through whenever the ids it draws are new. */
  lemma {:induction false} InsertRolesCommits(roles: map<Uuid, Role>, org: string, names: seq<string>, ids: seq<Uuid>)
    requires |names| == |ids|
    requires forall i :: 0 <= i < |ids| ==> ids[i] !in roles
    requires forall i, j :: 0 <= i < j < |ids| ==> ids[i] != ids[j]
    ensures InsertRoles(roles, org, names, ids).Some?
    decreases |names|
  {
    if names != [] {
      assert forall i :: 0 <= i < |ids[1..]| ==> ids[1..][i] == ids[i + 1];
      if HasRole(roles, org, names[0]) {
        InsertRolesCommits(roles, org, names[1..], ids[1..]);
      } else {
        InsertRolesCommits(roles[ids[0] := Role(org, names[0])], org, names[1..], ids[1..]);
      }
    }
  }

  lemma BootstrapEffect(db: Db, org: string, ids: seq<Uuid>)
    requires |ids| == 4 && UniqueRoles(db.roles) && BootstrapDefaultRolesTx(db, org, ids).Some?
    ensures var after := BootstrapDefaultRolesTx(db, org, ids).value;
            && after == db.(roles := after.roles, rolePermissions := after.rolePermissions)
            && Kept(db.roles, after.roles) && UniqueRoles(after.roles)
            && (forall n :: IsDefaultRole(n) ==> HasRole(after.roles, org, n))
            && (forall r :: r in after.roles && r !in db.roles ==>
                              after.roles[r].org == org && IsDefaultRole(after.roles[r].name))
            && db.rolePermissions <= after.rolePermissions
            && (forall rp :: rp in after.rolePermissions ==>
                               rp in db.rolePermissions || rp in DefaultGrantRows(after.roles, db.permissions, org))
  {
    InsertRolesEffect(db.roles, org, DEFAULT_ROLES, ids);
    assert forall n :: IsDefaultRole(n) <==> n in DEFAULT_ROLES by {
      assert DEFAULT_ROLES[0] == "owner" && DEFAULT_ROLES[1] == "admin"
          && DEFAULT_ROLES[2] == "member" && DEFAULT_ROLES[3] == "viewer";
    }
  }
}
