/** The part of the invariant that ties attempts to rows, step by step. */
module AttemptPreservation {
  import opened Prelude
  import opened Tables
  import opened Transactions
  import opened Steps
  import opened Invariant
  import opened Preservation

  // ----- Carried along by extension -----

  lemma MemberCarries(s: Sys, t: Sys, user: Uuid, org: string, identity: Uuid, email: string, name: string)
    requires DbExtends(s.db, s.removed, t.db, t.removed)
    requires Member(s, user, org, identity, email, name)
    ensures Member(t, user, org, identity, email, name)
  {
    var r :| r in s.db.roles && s.db.roles[r] == Role(org, name)
             && UserRole(org, user, r) in s.db.userRoles + s.removed;
    assert r in t.db.roles && t.db.roles[r] == Role(org, name);
    assert UserRole(org, user, r) in t.db.userRoles + t.removed;
  }

  lemma AcceptanceCarries(s: Sys, t: Sys, c: Acceptance)
    requires DbExtends(s.db, s.removed, t.db, t.removed) && AcceptanceOk(s, c)
    ensures AcceptanceOk(t, c)
  {
    if JoinerOf(c).Some? {
      MemberCarries(s, t, JoinerOf(c).value, c.pc.inv.org, c.identity, c.email, c.pc.inv.roleName);
    }
  }

  lemma OnboardingCarries(s: Sys, t: Sys, o: Onboarding)
    requires DbExtends(s.db, s.removed, t.db, t.removed) && OnboardingOk(s, o)
    ensures OnboardingOk(t, o)
  {
    if o.pc.Founded? {
      MemberCarries(s, t, o.pc.user, o.pc.org, o.identity, o.email, "owner");
    }
  }

  /** All attempts but those at `a` are as they were. */
  ghost predicate OnlyAt(s: Sys, t: Sys, a: int) {
    && (forall b :: b in t.onboardings && b != a ==> b in s.onboardings && t.onboardings[b] == s.onboardings[b])
    && (forall b :: b in t.acceptances && b != a ==> b in s.acceptances && t.acceptances[b] == s.acceptances[b])
  }

  lemma AttemptsCarry(s: Sys, t: Sys, a: int)
    requires DbExtends(s.db, s.removed, t.db, t.removed) && OnlyAt(s, t, a)
    requires AcceptancesOk(s) && OnboardingsOk(s)
    requires a in t.onboardings ==> OnboardingOk(t, t.onboardings[a])
    requires a in t.acceptances ==> AcceptanceOk(t, t.acceptances[a])
    ensures AcceptancesOk(t) && OnboardingsOk(t)
  {
    forall b | b in t.acceptances && b != a ensures AcceptanceOk(t, t.acceptances[b]) {
      AcceptanceCarries(s, t, s.acceptances[b]);
    }
    forall b | b in t.onboardings && b != a ensures OnboardingOk(t, t.onboardings[b]) {
      OnboardingCarries(s, t, s.onboardings[b]);
    }
  }

  /** Sessions and both kinds of attempt are fine. */
  ghost predicate AttemptsOk(s: Sys) {
    SessionsOk(s) && AcceptancesOk(s) && OnboardingsOk(s)
  }

  lemma SessionsCarry(s: Sys, t: Sys)
    requires IdentitiesKept(s.db.identities, t.db.identities) && SessionsOk(s) && t.sessions == s.sessions
    ensures SessionsOk(t)
  {
    forall p | p in t.sessions ensures p.0 in t.db.identities {
      assert p in s.sessions;
      var i := p.0;
      assert i in s.db.identities;
    }
  }

  // ----- The role insert never selects zero rows -----

  /** With a registered organization and a valid role name, exactly one role matches. */
  lemma OneNamedRole(db: Db, org: string, user: Uuid, name: string)
    requires StoreInv(db) && org in db.organizations && IsDefaultRole(name)
    ensures |NamedRoleRows(db.roles, org, user, name)| == 1
    ensures exists r :: r in db.roles && db.roles[r] == Role(org, name)
                        && NamedRoleRows(db.roles, org, user, name) == {UserRole(org, user, r)}
  {
    assert HasRole(db.roles, org, name);
    var r :| r in db.roles && db.roles[r] == Role(org, name);
    assert NamedRoleRows(db.roles, org, user, name) == {UserRole(org, user, r)};
  }

  lemma NewMember(s: Sys, t: Sys, org: string, identity: Uuid, email: string, name: string, id: Uuid)
    requires StoreInv(s.db) && org in s.db.organizations && IsDefaultRole(name)
    requires CreateMembershipWithRole(s.db, org, identity, email, name, id) == Some(t.db)
    ensures id !in s.db.users && Member(t, id, org, identity, email, name)
  {
    OneNamedRole(s.db, org, id, name);
    var r :| r in s.db.roles && s.db.roles[r] == Role(org, name)
             && NamedRoleRows(s.db.roles, org, id, name) == {UserRole(org, id, r)};
    assert UserRole(org, id, r) in t.db.userRoles;
  }

  // ----- AttemptsOk -----

  lemma RequestLeavesAttempts(s: Sys, e: Request)
    ensures OnRequest(s, e).onboardings == s.onboardings && OnRequest(s, e).acceptances == s.acceptances
  {
  }

  /** Logins open sessions for stored identities only. */
  lemma RequestKeepsSessions(s: Sys, e: Request)
    requires SessionsOk(s) && IdentitiesKept(s.db.identities, OnRequest(s, e).db.identities)
    ensures SessionsOk(OnRequest(s, e))
  {
  }

  lemma AttemptsAllCarry(s: Sys, t: Sys)
    requires DbExtends(s.db, s.removed, t.db, t.removed) && AttemptsOk(s) && SessionsOk(t)
    requires t.onboardings == s.onboardings && t.acceptances == s.acceptances
    ensures AttemptsOk(t)
  {
    forall b | b in t.acceptances ensures AcceptanceOk(t, t.acceptances[b]) {
      AcceptanceCarries(s, t, s.acceptances[b]);
    }
    forall b | b in t.onboardings ensures OnboardingOk(t, t.onboardings[b]) {
      OnboardingCarries(s, t, s.onboardings[b]);
    }
  }

  lemma RequestKeepsAttempts(s: Sys, e: Request)
    requires UniqueRoles(s.db.roles) && AttemptsOk(s)
    ensures AttemptsOk(OnRequest(s, e))
  {
    RequestExtendsStore(s, e);
    RequestLeavesAttempts(s, e);
    RequestKeepsSessions(s, e);
    AttemptsAllCarry(s, OnRequest(s, e));
  }

  /** The moves of one onboarding: what the step must establish about its own attempt. */
  lemma OnboardingMovesOk(s: Sys, t: Sys, a: int, o: Onboarding)
    requires DbExtends(s.db, s.removed, t.db, t.removed) && AttemptsOk(s)
    requires t.onboardings == s.onboardings[a := o] && t.acceptances == s.acceptances && t.sessions == s.sessions
    requires OnboardingOk(t, o)
    ensures AttemptsOk(t)
  {
    SessionsCarry(s, t);
    if a in t.acceptances { AcceptanceCarries(s, t, s.acceptances[a]); }
    AttemptsCarry(s, t, a);
  }

  lemma JoinOnboardingOk(s: Sys, a: int, id: Uuid)
    requires StoreInv(s.db) && a in s.onboardings && OnboardingOk(s, s.onboardings[a])
    ensures var t := JoinOnboarding(s, a, id); OnboardingOk(t, t.onboardings[a])
  {
    var t := JoinOnboarding(s, a, id);
    var o := s.onboardings[a];
    if t != s && t.onboardings[a].pc.Founded? {
      NewMember(s, t, o.pc.org, o.identity, o.email, "owner", id);
    }
  }

  lemma RegisterOnboardingOk(s: Sys, a: int, orgId: string, name: string, ids: seq<Uuid>)
    requires UniqueRoles(s.db.roles) && a in s.onboardings && OnboardingOk(s, s.onboardings[a])
    ensures var t := RegisterOnboarding(s, a, orgId, name, ids); OnboardingOk(t, t.onboardings[a])
  {
    if |ids| == 4 && RegisterOrganization(s.db, orgId, name, ids).Some? {
      RegisterOrganizationEffect(s.db, orgId, name, ids);
    }
  }

  lemma OnboardingStepOk(s: Sys, a: int, e: OnboardingStep)
    requires StoreInv(s.db) && AttemptsOk(s)
    ensures var t := OnOnboarding(s, a, e); t != s ==>
              a in t.onboardings && t.onboardings == s.onboardings[a := t.onboardings[a]]
              && t.acceptances == s.acceptances && t.sessions == s.sessions && OnboardingOk(t, t.onboardings[a])
  {
    if a in s.onboardings {
      assert OnboardingOk(s, s.onboardings[a]);
      match e
      case RegisterOrg(orgId, name, ids) => RegisterOnboardingOk(s, a, orgId, name, ids);
      case JoinAsOwner(id) => JoinOnboardingOk(s, a, id);
      case _ =>
    }
  }

  lemma OnboardingKeepsAttempts(s: Sys, a: int, e: OnboardingStep)
    requires StoreInv(s.db) && AttemptsOk(s)
    ensures AttemptsOk(OnOnboarding(s, a, e))
  {
    var t := OnOnboarding(s, a, e);
    if t != s {
      OnboardingExtends(s, a, e);
      OnboardingStepOk(s, a, e);
      OnboardingMovesOk(s, t, a, t.onboardings[a]);
    }
  }

  lemma AcceptanceMovesOk(s: Sys, t: Sys, a: int, c: Acceptance)
    requires DbExtends(s.db, s.removed, t.db, t.removed) && AttemptsOk(s)
    requires t.acceptances == s.acceptances[a := c] && t.onboardings == s.onboardings && t.sessions == s.sessions
    requires AcceptanceOk(t, c)
    ensures AttemptsOk(t)
  {
    SessionsCarry(s, t);
    if a in t.onboardings { OnboardingCarries(s, t, s.onboardings[a]); }
    AttemptsCarry(s, t, a);
  }

  lemma JoinAcceptanceOk(s: Sys, a: int, id: Uuid)
    requires StoreInv(s.db) && a in s.acceptances && AcceptanceOk(s, s.acceptances[a])
    ensures var t := JoinAcceptance(s, a, id); AcceptanceOk(t, t.acceptances[a])
  {
    var t := JoinAcceptance(s, a, id);
    var c := s.acceptances[a];
    if t != s && t.acceptances[a].pc.Joined? {
      NewMember(s, t, c.pc.inv.org, c.identity, c.email, c.pc.inv.roleName, id);
    }
  }

  lemma MarkAcceptanceOk(s: Sys, a: int, now: int)
    requires a in s.acceptances && AcceptanceOk(s, s.acceptances[a])
    ensures var t := MarkAcceptance(s, a, now); AcceptanceOk(t, t.acceptances[a])
  {
    var t := MarkAcceptance(s, a, now);
    InvitationExtends(s.db, s.removed, "", "", "", s.acceptances[a].token, now);
    AcceptanceCarries(s, s.(db := MarkAccepted(s.db, s.acceptances[a].token, now)), s.acceptances[a]);
  }

  lemma StartAcceptanceOk(s: Sys, a: int, token: string, identity: Uuid, email: string, now: int)
    requires SessionsOk(s) && a !in s.acceptances
    ensures var t := StartAcceptance(s, a, token, identity, email, now); t != s ==>
              a in t.acceptances && t.acceptances == s.acceptances[a := t.acceptances[a]]
              && t.onboardings == s.onboardings && t.sessions == s.sessions && AcceptanceOk(t, t.acceptances[a])
  {
    if (identity, email) in s.sessions {
      assert (identity, email).0 in s.db.identities;
    }
  }

  lemma AcceptanceStepOk(s: Sys, a: int, e: AcceptanceStep)
    requires StoreInv(s.db) && AttemptsOk(s)
    ensures var t := OnAcceptance(s, a, e); t != s ==>
              a in t.acceptances && t.acceptances == s.acceptances[a := t.acceptances[a]]
              && t.onboardings == s.onboardings && t.sessions == s.sessions && AcceptanceOk(t, t.acceptances[a])
  {
    if a in s.acceptances {
      assert AcceptanceOk(s, s.acceptances[a]);
      match e
      case JoinAsInvited(id) => JoinAcceptanceOk(s, a, id);
      case MarkInvitation(now) => MarkAcceptanceOk(s, a, now);
      case _ =>
    } else if e.ReadInvitation? {
      StartAcceptanceOk(s, a, e.token, e.identity, e.email, e.now);
    }
  }

  lemma AcceptanceKeepsAttempts(s: Sys, a: int, e: AcceptanceStep)
    requires StoreInv(s.db) && AttemptsOk(s)
    ensures AttemptsOk(OnAcceptance(s, a, e))
  {
    var t := OnAcceptance(s, a, e);
    if t != s {
      AcceptanceExtends(s, a, e);
      AcceptanceStepOk(s, a, e);
      AcceptanceMovesOk(s, t, a, t.acceptances[a]);
    }
  }

  // ----- What one step of each kind adds -----

  /** `t` is `s` after a request that added at most one organization, user and invitation. */
  ghost predicate Served(s: Sys, t: Sys, org: Option<string>, user: Option<Uuid>, token: Option<string>) {
    && t.onboardings == s.onboardings && t.acceptances == s.acceptances
    && (org.None? ==> t.db.organizations == s.db.organizations && t.publicOrgs == s.publicOrgs)
    && (org.Some? ==> org.value !in s.db.organizations && t.publicOrgs == s.publicOrgs + {org.value}
                      && t.db.organizations.Keys == s.db.organizations.Keys + {org.value})
    && (user.None? ==> t.db.users == s.db.users && t.registered == s.registered)
    && (user.Some? ==> user.value !in s.db.users && t.registered == s.registered + {user.value}
                       && user.value in t.db.users && t.db.users == s.db.users[user.value := t.db.users[user.value]]
                       && exists v :: v in s.db.users && s.db.users[v].org == t.db.users[user.value].org)
    && (token.None? ==> t.db.invitations == s.db.invitations)
    && (token.Some? ==> token.value !in s.db.invitations && token.value in t.db.invitations
                        && t.db.invitations == s.db.invitations[token.value := t.db.invitations[token.value]]
                        && t.db.invitations[token.value].acceptedAt.None?
                        && exists v :: v in s.db.users && s.db.users[v].org == t.db.invitations[token.value].org)
  }

  lemma RequestServes(s: Sys, e: Request) returns (org: Option<string>, user: Option<Uuid>, token: Option<string>)
    requires UniqueRoles(s.db.roles)
    ensures Served(s, OnRequest(s, e), org, user, token)
  {
    org, user, token := None, None, None;
    if OnRequest(s, e) != s {
      match e
      case PostOrganization(orgId, name, ids) =>
        RegisterOrganizationEffect(s.db, orgId, name, ids);
        org := Some(orgId);
      case PostUser(caller, id, zitadel, email) => user := Some(id);
      case PostInvitation(caller, email, roleName, i, at) => token := Some(i);
      case PostRole(caller, name, names, id) => CreateRoleEffect(s.db, s.db.users[caller].org, name, names, id);
      case _ =>
    }
  }

  /** `t` is `s` after a step of onboarding `a` that added at most an organization or its founder. */
  ghost predicate Onboarded(s: Sys, t: Sys, a: int, org: Option<string>, user: Option<Uuid>) {
    && t.acceptances == s.acceptances && t.registered == s.registered && t.publicOrgs == s.publicOrgs
    && t.db.invitations == s.db.invitations
    && a in t.onboardings && t.onboardings == s.onboardings[a := t.onboardings[a]]
    && (org.None? ==> t.db.organizations == s.db.organizations
                      && OrgOf(t.onboardings[a]) == if a in s.onboardings then OrgOf(s.onboardings[a]) else None)
    && (org.Some? ==> org.value !in s.db.organizations
                      && t.db.organizations.Keys == s.db.organizations.Keys + {org.value}
                      && a in s.onboardings && OrgOf(s.onboardings[a]).None? && OrgOf(t.onboardings[a]) == org)
    && (user.None? ==> t.db.users == s.db.users
                       && FounderOf(t.onboardings[a])
                          == if a in s.onboardings then FounderOf(s.onboardings[a]) else None)
    && (user.Some? ==> user.value !in s.db.users && user.value in t.db.users
                       && t.db.users == s.db.users[user.value := t.db.users[user.value]]
                       && a in s.onboardings && FounderOf(s.onboardings[a]).None? && FounderOf(t.onboardings[a]) == user
                       && t.onboardings[a].pc.Founded? && t.onboardings[a].pc.org == t.db.users[user.value].org)
  }

  lemma RegisterAdds(s: Sys, a: int, orgId: string, name: string, ids: seq<Uuid>) returns (org: Option<string>)
    requires UniqueRoles(s.db.roles) && RegisterOnboarding(s, a, orgId, name, ids) != s
    ensures Onboarded(s, RegisterOnboarding(s, a, orgId, name, ids), a, org, None)
  {
    org := None;
    if RegisterOnboarding(s, a, orgId, name, ids).onboardings[a].pc.Registered? {
      RegisterOrganizationEffect(s.db, orgId, name, ids);
      org := Some(orgId);
    }
  }

  lemma JoinAdds(s: Sys, a: int, id: Uuid) returns (user: Option<Uuid>)
    requires JoinOnboarding(s, a, id) != s
    ensures Onboarded(s, JoinOnboarding(s, a, id), a, None, user)
  {
    user := if JoinOnboarding(s, a, id).onboardings[a].pc.Founded? then Some(id) else None;
  }

  lemma OnboardingAdds(s: Sys, a: int, e: OnboardingStep) returns (org: Option<string>, user: Option<Uuid>)
    requires UniqueRoles(s.db.roles) && OnOnboarding(s, a, e) != s
    ensures Onboarded(s, OnOnboarding(s, a, e), a, org, user)
  {
    org, user := None, None;
    match e
    case RegisterOrg(orgId, name, ids) => org := RegisterAdds(s, a, orgId, name, ids);
    case JoinAsOwner(id) => user := JoinAdds(s, a, id);
    case _ =>
  }

  /** `t` is `s` after a step of acceptance `a` that added at most a member or an accepted_at. */
  ghost predicate Accepted(s: Sys, t: Sys, a: int, user: Option<Uuid>) {
    && t.onboardings == s.onboardings && t.registered == s.registered && t.publicOrgs == s.publicOrgs
    && t.db.organizations == s.db.organizations
    && a in t.acceptances && t.acceptances == s.acceptances[a := t.acceptances[a]]
    && (user.None? ==> t.db.users == s.db.users
                       && JoinerOf(t.acceptances[a]) == if a in s.acceptances then JoinerOf(s.acceptances[a]) else None)
    && (user.Some? ==> user.value !in s.db.users && user.value in t.db.users
                       && t.db.users == s.db.users[user.value := t.db.users[user.value]]
                       && a in s.acceptances && JoinerOf(s.acceptances[a]).None? && JoinerOf(t.acceptances[a]) == user
                       && InvitationOf(s.acceptances[a]).Some?
                       && s.acceptances[a].pc.inv.org == t.db.users[user.value].org)
    && (forall i :: i in t.db.invitations ==>
                      && i in s.db.invitations && t.db.invitations[i].org == s.db.invitations[i].org
                      && (t.db.invitations[i].acceptedAt.Some? ==>
                            s.db.invitations[i].acceptedAt.Some?
                            || (t.acceptances[a].token == i && t.acceptances[a].pc.Marked?)))
  }

  lemma AcceptanceAdds(s: Sys, a: int, e: AcceptanceStep) returns (user: Option<Uuid>)
    requires OnAcceptance(s, a, e) != s
    ensures Accepted(s, OnAcceptance(s, a, e), a, user)
  {
    user := if e.JoinAsInvited? && OnAcceptance(s, a, e).acceptances[a].pc.Joined? then Some(e.id) else None;
  }

  // ----- AcceptedOk -----

  lemma AcceptedStaysOk(s: Sys, t: Sys)
    requires AcceptedOk(s.db.invitations, s.acceptances) && AcceptancesKept(s.acceptances, t.acceptances)
    requires forall i :: i in t.db.invitations && t.db.invitations[i].acceptedAt.Some? ==>
                           (i in s.db.invitations && s.db.invitations[i].acceptedAt.Some?) || MarkedBy(t.acceptances, i)
    ensures AcceptedOk(t.db.invitations, t.acceptances)
  {
    forall i | i in t.db.invitations && t.db.invitations[i].acceptedAt.Some? ensures MarkedBy(t.acceptances, i) {
      if i in s.db.invitations && s.db.invitations[i].acceptedAt.Some? {
        assert MarkedBy(s.acceptances, i);
        var a :| a in s.acceptances && s.acceptances[a].token == i && s.acceptances[a].pc.Marked?;
        assert a in t.acceptances && t.acceptances[a].token == i && t.acceptances[a].pc.Marked?;
      }
    }
  }

  lemma AcceptanceKeepsAccepted(s: Sys, t: Sys, a: int, user: Option<Uuid>)
    requires AcceptedOk(s.db.invitations, s.acceptances)
    requires AcceptancesKept(s.acceptances, t.acceptances) && Accepted(s, t, a, user)
    ensures AcceptedOk(t.db.invitations, t.acceptances)
  {
    assert t.acceptances[a].pc.Marked? ==> MarkedBy(t.acceptances, t.acceptances[a].token);
    AcceptedStaysOk(s, t);
  }

  // ----- OrgSources -----

  lemma OrgSourcesStay(s: Sys, t: Sys)
    requires OrgSources(s)
    requires t.db.organizations.Keys == s.db.organizations.Keys && t.publicOrgs == s.publicOrgs
    requires forall a :: a in s.onboardings ==> a in t.onboardings && OrgOf(t.onboardings[a]) == OrgOf(s.onboardings[a])
    requires forall a :: a in t.onboardings && a !in s.onboardings ==> OrgOf(t.onboardings[a]).None?
    ensures OrgSources(t)
  {
    forall z ensures CreatedBy(t.onboardings, z) <==> CreatedBy(s.onboardings, z) {
      if CreatedBy(s.onboardings, z) {
        var a :| a in s.onboardings && OrgOf(s.onboardings[a]) == Some(z);
        assert a in t.onboardings && OrgOf(t.onboardings[a]) == Some(z);
      }
      if CreatedBy(t.onboardings, z) {
        var a :| a in t.onboardings && OrgOf(t.onboardings[a]) == Some(z);
        assert a in s.onboardings && OrgOf(s.onboardings[a]) == Some(z);
      }
    }
  }

  lemma PublicOrgSource(s: Sys, t: Sys, orgId: string)
    requires OrgSources(s) && orgId !in s.db.organizations
    requires t.db.organizations.Keys == s.db.organizations.Keys + {orgId}
    requires t.publicOrgs == s.publicOrgs + {orgId} && t.onboardings == s.onboardings
    ensures OrgSources(t)
  {
  }

  lemma OnboardingOrgSource(s: Sys, t: Sys, a: int, orgId: string)
    requires OrgSources(s) && orgId !in s.db.organizations
    requires t.db.organizations.Keys == s.db.organizations.Keys + {orgId} && t.publicOrgs == s.publicOrgs
    requires a in s.onboardings && OrgOf(s.onboardings[a]).None?
    requires a in t.onboardings && OrgOf(t.onboardings[a]) == Some(orgId)
    requires t.onboardings == s.onboardings[a := t.onboardings[a]]
    ensures OrgSources(t)
  {
    assert !CreatedBy(s.onboardings, orgId);
    forall z ensures CreatedBy(t.onboardings, z) <==> CreatedBy(s.onboardings, z) || z == orgId {
      if CreatedBy(s.onboardings, z) {
        var b :| b in s.onboardings && OrgOf(s.onboardings[b]) == Some(z);
        assert b in t.onboardings && OrgOf(t.onboardings[b]) == Some(z);
      }
      if CreatedBy(t.onboardings, z) {
        var b :| b in t.onboardings && OrgOf(t.onboardings[b]) == Some(z);
        assert b != a ==> b in s.onboardings && OrgOf(s.onboardings[b]) == Some(z);
      }
      assert a in t.onboardings && OrgOf(t.onboardings[a]) == Some(orgId);
    }
  }

  // ----- UserSources -----

  lemma UserSourcesStay(s: Sys, t: Sys)
    requires UserSources(s)
    requires t.db.users.Keys == s.db.users.Keys && t.registered == s.registered
    requires forall a :: a in s.onboardings ==>
                           a in t.onboardings && FounderOf(t.onboardings[a]) == FounderOf(s.onboardings[a])
    requires forall a :: a in t.onboardings && a !in s.onboardings ==> FounderOf(t.onboardings[a]).None?
    requires forall a :: a in s.acceptances ==>
                           a in t.acceptances && JoinerOf(t.acceptances[a]) == JoinerOf(s.acceptances[a])
    requires forall a :: a in t.acceptances && a !in s.acceptances ==> JoinerOf(t.acceptances[a]).None?
    ensures UserSources(t)
  {
    forall u ensures FoundedBy(t.onboardings, u) <==> FoundedBy(s.onboardings, u) {
      if FoundedBy(s.onboardings, u) {
        var a :| a in s.onboardings && FounderOf(s.onboardings[a]) == Some(u);
        assert a in t.onboardings && FounderOf(t.onboardings[a]) == Some(u);
      }
      if FoundedBy(t.onboardings, u) {
        var a :| a in t.onboardings && FounderOf(t.onboardings[a]) == Some(u);
        assert a in s.onboardings && FounderOf(s.onboardings[a]) == Some(u);
      }
    }
    forall u ensures JoinedBy(t.acceptances, u) <==> JoinedBy(s.acceptances, u) {
      if JoinedBy(s.acceptances, u) {
        var a :| a in s.acceptances && JoinerOf(s.acceptances[a]) == Some(u);
        assert a in t.acceptances && JoinerOf(t.acceptances[a]) == Some(u);
      }
      if JoinedBy(t.acceptances, u) {
        var a :| a in t.acceptances && JoinerOf(t.acceptances[a]) == Some(u);
        assert a in s.acceptances && JoinerOf(s.acceptances[a]) == Some(u);
      }
    }
  }

  lemma RegisteredSource(s: Sys, t: Sys, id: Uuid)
    requires UserSources(s) && id !in s.db.users
    requires t.db.users.Keys == s.db.users.Keys + {id} && t.registered == s.registered + {id}
    requires t.onboardings == s.onboardings && t.acceptances == s.acceptances
    ensures UserSources(t)
  {
  }

  lemma FounderSource(s: Sys, t: Sys, a: int, id: Uuid)
    requires UserSources(s) && id !in s.db.users
    requires t.db.users.Keys == s.db.users.Keys + {id} && t.registered == s.registered
    requires a in s.onboardings && FounderOf(s.onboardings[a]).None?
    requires a in t.onboardings && FounderOf(t.onboardings[a]) == Some(id)
    requires t.onboardings == s.onboardings[a := t.onboardings[a]] && t.acceptances == s.acceptances
    ensures UserSources(t)
  {
    assert !FoundedBy(s.onboardings, id) && !JoinedBy(s.acceptances, id) && id !in s.registered;
    forall u ensures FoundedBy(t.onboardings, u) <==> FoundedBy(s.onboardings, u) || u == id {
      if FoundedBy(s.onboardings, u) {
        var b :| b in s.onboardings && FounderOf(s.onboardings[b]) == Some(u);
        assert b in t.onboardings && FounderOf(t.onboardings[b]) == Some(u);
      }
      if FoundedBy(t.onboardings, u) {
        var b :| b in t.onboardings && FounderOf(t.onboardings[b]) == Some(u);
        assert b != a ==> b in s.onboardings && FounderOf(s.onboardings[b]) == Some(u);
      }
      assert a in t.onboardings && FounderOf(t.onboardings[a]) == Some(id);
    }
  }

  lemma JoinerSource(s: Sys, t: Sys, a: int, id: Uuid)
    requires UserSources(s) && id !in s.db.users
    requires t.db.users.Keys == s.db.users.Keys + {id} && t.registered == s.registered
    requires a in s.acceptances && JoinerOf(s.acceptances[a]).None?
    requires a in t.acceptances && JoinerOf(t.acceptances[a]) == Some(id)
    requires t.acceptances == s.acceptances[a := t.acceptances[a]] && t.onboardings == s.onboardings
    ensures UserSources(t)
  {
    assert !FoundedBy(s.onboardings, id) && !JoinedBy(s.acceptances, id) && id !in s.registered;
    forall u ensures JoinedBy(t.acceptances, u) <==> JoinedBy(s.acceptances, u) || u == id {
      if JoinedBy(s.acceptances, u) {
        var b :| b in s.acceptances && JoinerOf(s.acceptances[b]) == Some(u);
        assert b in t.acceptances && JoinerOf(t.acceptances[b]) == Some(u);
      }
      if JoinedBy(t.acceptances, u) {
        var b :| b in t.acceptances && JoinerOf(t.acceptances[b]) == Some(u);
        assert b != a ==> b in s.acceptances && JoinerOf(s.acceptances[b]) == Some(u);
      }
      assert a in t.acceptances && JoinerOf(t.acceptances[a]) == Some(id);
    }
  }

  // ----- Founders -----

  lemma FoundersStay(s: Sys, t: Sys)
    requires Founders(s) && OnboardingsKept(s.onboardings, t.onboardings)
    requires forall u | u in t.db.users && (u !in s.db.users || s.db.users[u].org != t.db.users[u].org)
               :: HasFounder(t.onboardings, t.db.users[u].org) || HasFounder(s.onboardings, t.db.users[u].org)
    requires forall i | i in t.db.invitations
                        && (i !in s.db.invitations || s.db.invitations[i].org != t.db.invitations[i].org)
               :: HasFounder(s.onboardings, t.db.invitations[i].org)
    ensures Founders(t)
  {
    forall org | HasFounder(s.onboardings, org) ensures HasFounder(t.onboardings, org) {
      var a :| a in s.onboardings && s.onboardings[a].pc.Founded? && s.onboardings[a].pc.org == org;
      assert a in t.onboardings && t.onboardings[a].pc.Founded? && t.onboardings[a].pc.org == org;
    }
  }

  // ----- The whole invariant -----

  ghost predicate Provenance(s: Sys) {
    && AcceptedOk(s.db.invitations, s.acceptances)
    && OrgSources(s) && UserSources(s) && Founders(s)
  }

  lemma ServedKeepsProvenance(s: Sys, t: Sys, org: Option<string>, user: Option<Uuid>, token: Option<string>)
    requires Provenance(s) && Served(s, t, org, user, token)
    ensures Provenance(t)
  {
    AcceptedStaysOk(s, t);
    if org.None? { OrgSourcesStay(s, t); } else { PublicOrgSource(s, t, org.value); }
    if user.None? { UserSourcesStay(s, t); } else { RegisteredSource(s, t, user.value); }
    FoundersStay(s, t);
  }

  lemma OnboardedKeepsProvenance(s: Sys, t: Sys, a: int, org: Option<string>, user: Option<Uuid>)
    requires Provenance(s) && Onboarded(s, t, a, org, user) && OnboardingsKept(s.onboardings, t.onboardings)
    ensures Provenance(t)
  {
    if org.None? { OrgSourcesStay(s, t); } else { OnboardingOrgSource(s, t, a, org.value); }
    if user.None? {
      UserSourcesStay(s, t);
    } else {
      FounderSource(s, t, a, user.value);
      assert HasFounder(t.onboardings, t.onboardings[a].pc.org);
    }
    FoundersStay(s, t);
  }

  lemma AcceptedKeepsProvenance(s: Sys, t: Sys, a: int, user: Option<Uuid>)
    requires Provenance(s) && AcceptancesOk(s)
    requires Accepted(s, t, a, user) && AcceptancesKept(s.acceptances, t.acceptances)
    ensures Provenance(t)
  {
    AcceptanceKeepsAccepted(s, t, a, user);
    OrgSourcesStay(s, t);
    if user.None? {
      UserSourcesStay(s, t);
    } else {
      assert AcceptanceOk(s, s.acceptances[a]);
      JoinerSource(s, t, a, user.value);
    }
    FoundersStay(s, t);
  }

  lemma RequestKeepsInv(s: Sys, e: Request)
    requires Inv(s)
    ensures Inv(OnRequest(s, e))
  {
    RequestKeepsStore(s, e);
    RequestKeepsAttempts(s, e);
    var org, user, token := RequestServes(s, e);
    ServedKeepsProvenance(s, OnRequest(s, e), org, user, token);
  }

  lemma OnboardingKeepsInv(s: Sys, a: int, e: OnboardingStep)
    requires Inv(s)
    ensures Inv(OnOnboarding(s, a, e))
  {
    OnboardingKeepsStore(s, a, e);
    OnboardingKeepsAttempts(s, a, e);
    if OnOnboarding(s, a, e) != s {
      OnboardingExtends(s, a, e);
      var org, user := OnboardingAdds(s, a, e);
      OnboardedKeepsProvenance(s, OnOnboarding(s, a, e), a, org, user);
    }
  }

  lemma AcceptanceKeepsInv(s: Sys, a: int, e: AcceptanceStep)
    requires Inv(s)
    ensures Inv(OnAcceptance(s, a, e))
  {
    AcceptanceKeepsStore(s, a, e);
    AcceptanceKeepsAttempts(s, a, e);
    if OnAcceptance(s, a, e) != s {
      AcceptanceExtends(s, a, e);
      var user := AcceptanceAdds(s, a, e);
      AcceptedKeepsProvenance(s, OnAcceptance(s, a, e), a, user);
    }
  }

  /** The invariant is inductive: one step of any kind keeps it. */
  lemma NextKeepsInv(s: Sys, e: Event)
    requires Inv(s)
    ensures Inv(Next(s, e))
  {
    match e
    case Serve(request) => RequestKeepsInv(s, request);
    case Onboard(a, step) => OnboardingKeepsInv(s, a, step);
    case Accept(a, step) => AcceptanceKeepsInv(s, a, step);
  }
}
