/** What holds over every run of the routed system from a freshly migrated database. */
module Runs {
  import opened Prelude
  import opened Tables
  import opened Transactions
  import opened Steps
  import opened Invariant
  import opened Preservation
  import opened AttemptPreservation

  lemma FreshStore(s: Sys)
    requires Fresh(s)
    ensures StoreInv(s.db)
  {
  }

  lemma FreshAttempts(s: Sys)
    requires s.onboardings == map[] && s.acceptances == map[] && s.sessions == {}
    ensures AttemptsOk(s)
  {
  }

  lemma FreshOrgSources(s: Sys)
    requires s.onboardings == map[] && s.publicOrgs == {} && s.db.organizations == map[]
    ensures OrgSources(s)
  {
    forall z ensures !CreatedBy(s.onboardings, z) {
    }
  }

  lemma FreshUserSources(s: Sys)
    requires s.onboardings == map[] && s.acceptances == map[] && s.registered == {} && s.db.users == map[]
    ensures UserSources(s)
  {
    forall u ensures !FoundedBy(s.onboardings, u) && !JoinedBy(s.acceptances, u) {
    }
  }

  lemma FreshInv(s: Sys)
    requires Fresh(s)
    ensures Inv(s)
  {
    FreshStore(s);
    FreshAttempts(s);
    FreshOrgSources(s);
    FreshUserSources(s);
  }

  lemma {:induction false} RunKeepsInv(s: Sys, events: seq<Event>)
    requires Inv(s)
    ensures Inv(Run(s, events)) && Extends(s, Run(s, events))
    decreases |events|
  {
    if events == [] {
      RowsExtend(s.db, s.removed, "", 0, 0);
      StoreStepExtends(s, s);
    } else {
      NextKeepsInv(s, events[0]);
      NextExtends(s, events[0]);
      RunKeepsInv(Next(s, events[0]), events[1..]);
      ExtendsTransitive(s, Next(s, events[0]), Run(s, events));
    }
  }

  /** Some run of the system leads from a freshly migrated database to `s`. */
  ghost predicate Reachable(s: Sys) {
    exists start, events :: Fresh(start) && s == Run(start, events)
  }

  lemma ReachableInv(s: Sys)
    requires Reachable(s)
    ensures Inv(s)
  {
    var start, events :| Fresh(start) && s == Run(start, events);
    FreshInv(start);
    RunKeepsInv(start, events);
  }

  /** The parts of the invariant, one at a time. */
  lemma ReachableStore(s: Sys)
    requires Reachable(s)
    ensures StoreInv(s.db)
  {
    ReachableInv(s);
  }

  lemma ReachableAttempts(s: Sys)
    requires Reachable(s)
    ensures AttemptsOk(s)
  {
    ReachableInv(s);
  }

  lemma ReachableSources(s: Sys)
    requires Reachable(s)
    ensures AcceptedOk(s.db.invitations, s.acceptances) && OrgSources(s) && UserSources(s) && Founders(s)
  {
    ReachableInv(s);
  }

  /** What a reachable state leads to is reachable, and extends it. */
  lemma {:induction false} RunAppends(s: Sys, first: seq<Event>, second: seq<Event>)
    ensures Run(Run(s, first), second) == Run(s, first + second)
    decreases |first|
  {
    if first == [] {
      assert first + second == second;
    } else {
      assert (first + second)[1..] == first[1..] + second;
      RunAppends(Next(s, first[0]), first[1..], second);
    }
  }

  lemma RunStaysReachable(s: Sys, events: seq<Event>)
    requires Reachable(s)
    ensures Reachable(Run(s, events)) && Extends(s, Run(s, events))
  {
    var start, before :| Fresh(start) && s == Run(start, before);
    RunAppends(start, before, events);
    ReachableInv(s);
    RunKeepsInv(s, events);
  }

  // ----- Invitations -----

  /** An accepted invitation has its member, with its role unless that was removed. */
  lemma AcceptedInvitationHasMember(s: Sys, token: string)
    requires Reachable(s) && token in s.db.invitations && s.db.invitations[token].acceptedAt.Some?
    ensures var inv := s.db.invitations[token];
            exists u, r :: u in s.db.users && s.db.users[u].org == inv.org && s.db.users[u].email == inv.email
                           && r in s.db.roles && s.db.roles[r] == Role(inv.org, inv.roleName)
                           && (UserRole(inv.org, u, r) in s.db.userRoles || UserRole(inv.org, u, r) in s.removed)
  {
    ReachableAttempts(s);
    var inv := s.db.invitations[token];
    assert MarkedBy(s.acceptances, token) by { ReachableSources(s); }
    var a :| a in s.acceptances && s.acceptances[a].token == token && s.acceptances[a].pc.Marked?;
    var c := s.acceptances[a];
    assert AcceptanceOk(s, c);
    assert inv.org == c.pc.inv.org && inv.email == c.pc.inv.email && inv.roleName == c.pc.inv.roleName;
    var u := c.pc.user;
    var r :| r in s.db.roles && s.db.roles[r] == Role(inv.org, inv.roleName)
             && UserRole(inv.org, u, r) in s.db.userRoles + s.removed;
  }

  /** However attempts interleave, an invitation yields at most one membership, ever. */
  lemma OneMemberPerInvitation(s: Sys, a: int, b: int)
    requires Reachable(s) && a in s.acceptances && b in s.acceptances
    requires s.acceptances[a].token == s.acceptances[b].token
    requires JoinerOf(s.acceptances[a]).Some? && JoinerOf(s.acceptances[b]).Some?
    ensures a == b
  {
    OneJoinerPerEmail(s, a, b);
  }

  /** Indeed all invitations ever sent to one address yield at most one membership. */
  lemma OneJoinerPerEmail(s: Sys, a: int, b: int)
    requires Reachable(s) && a in s.acceptances && b in s.acceptances
    requires s.acceptances[a].token == s.acceptances[b].token || s.acceptances[a].email == s.acceptances[b].email
    requires JoinerOf(s.acceptances[a]).Some? && JoinerOf(s.acceptances[b]).Some?
    ensures a == b
  {
    assert AcceptanceOk(s, s.acceptances[a]) && AcceptanceOk(s, s.acceptances[b]) by { ReachableAttempts(s); }
    assert UniqueUsers(s.db.users) by { ReachableStore(s); }
    assert OwnJoiners(s.acceptances) by { ReachableSources(s); }
    assert s.acceptances[a].email == s.acceptances[b].email;
  }

  lemma MarkedAcceptance(s: Sys, token: string) returns (a: int)
    requires Reachable(s) && token in s.db.invitations && s.db.invitations[token].acceptedAt.Some?
    ensures a in s.acceptances && s.acceptances[a].token == token && s.acceptances[a].pc.Marked?
    ensures s.acceptances[a].email == s.db.invitations[token].email
  {
    assert MarkedBy(s.acceptances, token) by { ReachableSources(s); }
    a :| a in s.acceptances && s.acceptances[a].token == token && s.acceptances[a].pc.Marked?;
    assert AcceptanceOk(s, s.acceptances[a]) by { ReachableAttempts(s); }
  }

  lemma OneAcceptedInvitationPerEmail(s: Sys, t1: string, t2: string)
    requires Reachable(s) && t1 in s.db.invitations && t2 in s.db.invitations
    requires s.db.invitations[t1].acceptedAt.Some? && s.db.invitations[t2].acceptedAt.Some?
    requires s.db.invitations[t1].email == s.db.invitations[t2].email
    ensures t1 == t2
  {
    var a := MarkedAcceptance(s, t1);
    var b := MarkedAcceptance(s, t2);
    OneJoinerPerEmail(s, a, b);
  }

  /** accepted_at never goes back to NULL, and nothing else of an invitation ever changes. */
  lemma InvitationsOnlyGetAccepted(s: Sys, events: seq<Event>, token: string)
    requires Reachable(s) && token in s.db.invitations
    ensures var t := Run(s, events);
            && Stands(t.db.invitations, token, s.db.invitations[token])
            && (s.db.invitations[token].acceptedAt.Some? ==> t.db.invitations[token].acceptedAt.Some?)
  {
    RunStaysReachable(s, events);
  }

  // ----- Identities -----

  lemma MembershipIsUnique(db: Db, identity: Uuid, u: Uuid, v: Uuid)
    requires UniqueUsers(db.users) && Bridge(db.users, db.identities)
    requires u in MembershipRows(db.users, identity) && v in MembershipRows(db.users, identity)
    ensures u == v
  {
    assert db.users[u].zitadel == db.identities[identity].zitadel == db.users[v].zitadel;
  }

  /** An identity has at most one membership. */
  lemma OneMembershipPerIdentity(s: Sys, identity: Uuid)
    requires Reachable(s)
    ensures |MembershipRows(s.db.users, identity)| <= 1
  {
    var rows := MembershipRows(s.db.users, identity);
    if rows != {} {
      var u := PickElement(rows);
      forall v | v in rows ensures v == u {
        ReachableStore(s);
        MembershipIsUnique(s.db, identity, u, v);
      }
      assert rows == {u};
    }
  }

  /** The unordered LIMIT 1 has one possible answer, and all three membership queries agree. */
  lemma MembershipQueriesAgree(s: Sys, identity: Uuid, first: Option<Uuid>, second: Option<Uuid>)
    requires Reachable(s)
    requires DefaultMembership(s.db.users, identity, first) && DefaultMembership(s.db.users, identity, second)
    ensures first == second
    ensures HasMembership(s.db.users, identity) <==> first.Some?
    ensures MembershipRows(s.db.users, identity) == match first case None => {} case Some(u) => {u}
  {
    var rows := MembershipRows(s.db.users, identity);
    if first.Some? {
      forall v | v in rows ensures v == first.value {
        ReachableStore(s);
        MembershipIsUnique(s.db, identity, first.value, v);
      }
      assert rows == {first.value};
    } else {
      assert |rows| == 0;
    }
  }

  /** A session's membership, once resolved, resolves to the same row and tenant in every later state. */
  lemma ResolvedMembershipIsStable(s: Sys, events: seq<Event>, identity: Uuid, user: Uuid, answer: Option<Uuid>)
    requires Reachable(s) && DefaultMembership(s.db.users, identity, Some(user))
    requires DefaultMembership(Run(s, events).db.users, identity, answer)
    ensures answer == Some(user) && Run(s, events).db.users[user] == s.db.users[user]
  {
    var t := Run(s, events);
    RunStaysReachable(s, events);
    assert user in MembershipRows(t.db.users, identity);
    if answer.Some? {
      ReachableStore(t);
      MembershipIsUnique(t.db, identity, user, answer.value);
    }
  }

  // ----- Roles -----

  /** Whenever an attempt is about to join, the role insert selects exactly one row. */
  lemma RoleInsertNeverSilentlyEmpty(s: Sys, a: int, user: Uuid)
    requires Reachable(s)
    ensures a in s.onboardings && s.onboardings[a].pc.Registered? ==>
              |NamedRoleRows(s.db.roles, s.onboardings[a].pc.org, user, "owner")| == 1
    ensures a in s.acceptances && s.acceptances[a].pc.Read? ==>
              |NamedRoleRows(s.db.roles, s.acceptances[a].pc.inv.org, user, s.acceptances[a].pc.inv.roleName)| == 1
  {
    ReachableStore(s);
    if a in s.onboardings && s.onboardings[a].pc.Registered? {
      assert OnboardingOk(s, s.onboardings[a]) by { ReachableAttempts(s); }
      OneNamedRole(s.db, s.onboardings[a].pc.org, user, "owner");
    }
    if a in s.acceptances && s.acceptances[a].pc.Read? {
      assert AcceptanceOk(s, s.acceptances[a]) by { ReachableAttempts(s); }
      OneNamedRole(s.db, s.acceptances[a].pc.inv.org, user, s.acceptances[a].pc.inv.roleName);
    }
  }

  /** A default role of any tenant is listed with exactly its documented permissions. */
  lemma DefaultRolesStayExact(s: Sys, role: Uuid)
    requires Reachable(s) && role in s.db.roles
    ensures var known, listed := s.db.permissions.Values, PermissionsOfRole(s.db, role);
            && (s.db.roles[role].name == "owner" ==> listed == known)
            && (s.db.roles[role].name == "admin" ==> listed == known - {"billing.write"})
            && (s.db.roles[role].name == "member" ==> listed == known * {"users.read", "settings.read"})
            && (s.db.roles[role].name == "viewer" ==>
                  listed == known * {"users.read", "billing.read", "audit.read", "settings.read"})
  {
    ReachableStore(s);
    ExactGrantsInWords(s.db, role);
  }

  lemma ExactGrantsInWords(db: Db, role: Uuid)
    requires ExactGrants(db.roles, db.permissions, db.rolePermissions) && role in db.roles
    ensures var known, listed := db.permissions.Values, PermissionsOfRole(db, role);
            && (db.roles[role].name == "owner" ==> listed == known)
            && (db.roles[role].name == "admin" ==> listed == known - {"billing.write"})
            && (db.roles[role].name == "member" ==> listed == known * {"users.read", "settings.read"})
            && (db.roles[role].name == "viewer" ==>
                  listed == known * {"users.read", "billing.read", "audit.read", "settings.read"})
  {
    if IsDefaultRole(db.roles[role].name) {
      forall n ensures n in PermissionsOfRole(db, role)
                       <==> n in db.permissions.Values && DefaultGrant(db.roles[role].name, n) {
        if n in db.permissions.Values && DefaultGrant(db.roles[role].name, n) {
          var p := PickKey(db.permissions, n);
          assert RolePermission(db.roles[role].org, role, p) in db.rolePermissions;
        }
      }
    }
  }

  lemma OwnersHoldEverything(db: Db, org: string, user: Uuid, role: Uuid, permission: string)
    requires ExactGrants(db.roles, db.permissions, db.rolePermissions) && permission in db.permissions.Values
    requires user in db.users && db.users[user].org == org
    requires role in db.roles && db.roles[role] == Role(org, "owner") && UserRole(org, user, role) in db.userRoles
    ensures UserHasPermission(db, org, user, permission)
  {
    var p := PickKey(db.permissions, permission);
    assert RolePermission(org, role, p) in db.rolePermissions;
  }

  /** A founder passes every permission check, then and ever after, until a role is removed. */
  lemma FounderKeepsEveryPermission(s: Sys, events: seq<Event>, a: int, permission: string)
    requires Reachable(s) && a in s.onboardings && s.onboardings[a].pc.Founded?
    requires permission in s.db.permissions.Values
    ensures var pc, t := s.onboardings[a].pc, Run(s, events);
            (forall r :: UserRole(pc.org, pc.user, r) !in t.removed) ==>
              UserHasPermission(t.db, pc.org, pc.user, permission)
  {
    var pc, t := s.onboardings[a].pc, Run(s, events);
    RunStaysReachable(s, events);
    assert t.onboardings[a].pc == pc;
    assert OnboardingOk(t, t.onboardings[a]) by { ReachableAttempts(t); }
    if forall r :: UserRole(pc.org, pc.user, r) !in t.removed {
      var r :| r in t.db.roles && t.db.roles[r] == Role(pc.org, "owner")
               && UserRole(pc.org, pc.user, r) in t.db.userRoles + t.removed;
      ReachableStore(t);
      OwnersHoldEverything(t.db, pc.org, pc.user, r, permission);
    }
  }

  /** No membership of an attempt is ever without the role the attempt was to give it. */
  lemma NoRolelessMembership(s: Sys, a: int)
    requires Reachable(s)
    ensures a in s.onboardings && s.onboardings[a].pc.Founded? ==>
              Granted(s, s.onboardings[a].pc.org, s.onboardings[a].pc.user, "owner")
    ensures a in s.acceptances && JoinerOf(s.acceptances[a]).Some? ==>
              Granted(s, s.acceptances[a].pc.inv.org, JoinerOf(s.acceptances[a]).value,
                      s.acceptances[a].pc.inv.roleName)
  {
    ReachableAttempts(s);
    if a in s.onboardings { assert OnboardingOk(s, s.onboardings[a]); }
    if a in s.acceptances { assert AcceptanceOk(s, s.acceptances[a]); }
  }

  // ----- Conservation -----

  ghost function OrgsOfAttempts(onboardings: map<int, Onboarding>): (m: map<int, string>)
    ensures forall a :: a in m <==> a in onboardings && OrgOf(onboardings[a]).Some?
    ensures forall a :: a in m ==> OrgOf(onboardings[a]) == Some(m[a])
  {
    map a | a in onboardings && OrgOf(onboardings[a]).Some? :: OrgOf(onboardings[a]).value
  }

  ghost function FoundersOfAttempts(onboardings: map<int, Onboarding>): (m: map<int, Uuid>)
    ensures forall a :: a in m <==> a in onboardings && FounderOf(onboardings[a]).Some?
    ensures forall a :: a in m ==> FounderOf(onboardings[a]) == Some(m[a])
  {
    map a | a in onboardings && FounderOf(onboardings[a]).Some? :: FounderOf(onboardings[a]).value
  }

  ghost function JoinersOfAttempts(acceptances: map<int, Acceptance>): (m: map<int, Uuid>)
    ensures forall a :: a in m <==> a in acceptances && JoinerOf(acceptances[a]).Some?
    ensures forall a :: a in m ==> JoinerOf(acceptances[a]) == Some(m[a])
  {
    map a | a in acceptances && JoinerOf(acceptances[a]).Some? :: JoinerOf(acceptances[a]).value
  }

  lemma OrgValues(s: Sys)
    requires OrgSources(s)
    ensures var m := OrgsOfAttempts(s.onboardings);
            |m.Values| == |m| && m.Values !! s.publicOrgs && s.db.organizations.Keys == s.publicOrgs + m.Values
  {
    var m := OrgsOfAttempts(s.onboardings);
    forall a, b | a in m && b in m && m[a] == m[b] ensures a == b {
      assert OrgOf(s.onboardings[a]) == OrgOf(s.onboardings[b]);
    }
    InjectiveMapSize(m);
    forall z ensures z in m.Values <==> CreatedBy(s.onboardings, z) {
      if z in m.Values {
        var a := PickKey(m, z);
        assert OrgOf(s.onboardings[a]) == Some(z);
      }
      if CreatedBy(s.onboardings, z) {
        var a :| a in s.onboardings && OrgOf(s.onboardings[a]) == Some(z);
        assert a in m && m[a] == z;
      }
    }
  }

  /** Organizations are those posted publicly plus one for each onboarding past step 1. */
  lemma OrganizationsAreConserved(s: Sys)
    requires Reachable(s)
    ensures |s.db.organizations| == |s.publicOrgs| + |OrgsOfAttempts(s.onboardings)|
  {
    ReachableSources(s);
    OrgValues(s);
    assert |s.db.organizations| == |s.db.organizations.Keys|;
  }

  lemma DisjointSizes<T>(whole: set<T>, a: set<T>, b: set<T>, c: set<T>)
    requires whole == a + b + c && a !! b && a !! c && b !! c
    ensures |whole| == |a| + |b| + |c|
  {
    assert |a + b| == |a| + |b|;
    assert |a + b + c| == |a + b| + |c|;
  }

  /** Those past step 1 are the successes, the failures after step 1 and the attempts in flight. */
  lemma OnboardingOrganizationsAccounted(onboardings: map<int, Onboarding>)
    ensures |OrgsOfAttempts(onboardings)|
         == |set a | a in onboardings && onboardings[a].pc.Founded?|
          + |set a | a in onboardings && onboardings[a].pc.Registered?|
          + |set a | a in onboardings && onboardings[a].pc.Abandoned? && onboardings[a].pc.left.Some?|
  {
    var founded := set a | a in onboardings && onboardings[a].pc.Founded?;
    var inFlight := set a | a in onboardings && onboardings[a].pc.Registered?;
    var failed := set a | a in onboardings && onboardings[a].pc.Abandoned? && onboardings[a].pc.left.Some?;
    var keys := OrgsOfAttempts(onboardings).Keys;
    forall a ensures a in keys <==> a in founded + inFlight + failed {
      if a in onboardings { assert OrgOf(onboardings[a]).Some? <==> a in founded + inFlight + failed; }
    }
    assert keys == founded + inFlight + failed;
    DisjointSizes(OrgsOfAttempts(onboardings).Keys, founded, inFlight, failed);
  }

  lemma FounderValues(s: Sys)
    requires UserSources(s)
    ensures var m := FoundersOfAttempts(s.onboardings);
            |m.Values| == |m| && forall u :: u in m.Values <==> FoundedBy(s.onboardings, u)
  {
    var m := FoundersOfAttempts(s.onboardings);
    forall a, b | a in m && b in m && m[a] == m[b] ensures a == b {
      assert FounderOf(s.onboardings[a]) == FounderOf(s.onboardings[b]);
    }
    InjectiveMapSize(m);
    forall u ensures u in m.Values <==> FoundedBy(s.onboardings, u) {
      if u in m.Values {
        var a := PickKey(m, u);
        assert FounderOf(s.onboardings[a]) == Some(u);
      }
      if FoundedBy(s.onboardings, u) {
        var a :| a in s.onboardings && FounderOf(s.onboardings[a]) == Some(u);
        assert a in m && m[a] == u;
      }
    }
  }

  lemma JoinerValues(s: Sys)
    requires UserSources(s)
    ensures var m := JoinersOfAttempts(s.acceptances);
            |m.Values| == |m| && forall u :: u in m.Values <==> JoinedBy(s.acceptances, u)
  {
    var m := JoinersOfAttempts(s.acceptances);
    forall a, b | a in m && b in m && m[a] == m[b] ensures a == b {
      assert JoinerOf(s.acceptances[a]) == JoinerOf(s.acceptances[b]);
    }
    InjectiveMapSize(m);
    forall u ensures u in m.Values <==> JoinedBy(s.acceptances, u) {
      if u in m.Values {
        var a := PickKey(m, u);
        assert JoinerOf(s.acceptances[a]) == Some(u);
      }
      if JoinedBy(s.acceptances, u) {
        var a :| a in s.acceptances && JoinerOf(s.acceptances[a]) == Some(u);
        assert a in m && m[a] == u;
      }
    }
  }

  lemma UserValues(s: Sys, founders: set<Uuid>, joiners: set<Uuid>)
    requires UserSources(s)
    requires forall u :: u in founders <==> FoundedBy(s.onboardings, u)
    requires forall u :: u in joiners <==> JoinedBy(s.acceptances, u)
    ensures s.db.users.Keys == s.registered + founders + joiners
    ensures s.registered !! founders && s.registered !! joiners && founders !! joiners
  {
    forall u: Uuid ensures u in s.db.users <==> u in s.registered + founders + joiners {
      assert u in s.db.users <==> u in s.registered || FoundedBy(s.onboardings, u) || JoinedBy(s.acceptances, u);
    }
    forall u: Uuid ensures !(u in s.registered && u in founders) && !(u in s.registered && u in joiners)
                           && !(u in founders && u in joiners) {
      assert u in s.registered ==> !FoundedBy(s.onboardings, u) && !JoinedBy(s.acceptances, u);
      assert FoundedBy(s.onboardings, u) ==> !JoinedBy(s.acceptances, u);
    }
  }

  /** Memberships are those registered by a member plus one for each attempt that joined. */
  lemma MembershipsAreConserved(s: Sys)
    requires Reachable(s)
    ensures |s.db.users| == |s.registered| + |FoundersOfAttempts(s.onboardings)| + |JoinersOfAttempts(s.acceptances)|
  {
    var f, j := FoundersOfAttempts(s.onboardings).Values, JoinersOfAttempts(s.acceptances).Values;
    assert s.db.users.Keys == s.registered + f + j && s.registered !! f && s.registered !! j && f !! j
        && |f| == |FoundersOfAttempts(s.onboardings)| && |j| == |JoinersOfAttempts(s.acceptances)| by {
      ReachableSources(s);
      FounderValues(s);
      JoinerValues(s);
      UserValues(s, f, j);
    }
    DisjointSizes(s.db.users.Keys, s.registered, f, j);
    assert |s.db.users| == |s.db.users.Keys|;
  }

  /** Nobody belongs to the organization and nobody is invited into it. */
  ghost predicate Memberless(db: Db, org: string) {
    && (forall u :: u in db.users ==> db.users[u].org != org)
    && (forall t :: t in db.invitations ==> db.invitations[t].org != org)
  }

  /** Exactly the organizations that no onboarding founded have neither members nor invitations. */
  lemma UnfoundedIsMemberless(s: Sys, org: string)
    requires Reachable(s)
    ensures Memberless(s.db, org) <==> !HasFounder(s.onboardings, org)
  {
    if HasFounder(s.onboardings, org) {
      var a :| a in s.onboardings && s.onboardings[a].pc.Founded? && s.onboardings[a].pc.org == org;
      assert OnboardingOk(s, s.onboardings[a]) by { ReachableAttempts(s); }
    } else {
      assert Founders(s) by { ReachableSources(s); }
    }
  }

  lemma NotFoundedByOther(s: Sys, org: string)
    requires OrgSources(s) && org in s.publicOrgs
    ensures !HasFounder(s.onboardings, org)
  {
    forall a | a in s.onboardings && s.onboardings[a].pc.Founded? ensures s.onboardings[a].pc.org != org {
      assert OrgOf(s.onboardings[a]) == Some(s.onboardings[a].pc.org);
    }
  }

  /** An organization posted to the public route stays empty for ever. */
  lemma PublicOrganizationsStayMemberless(s: Sys, events: seq<Event>, org: string)
    requires Reachable(s) && org in s.publicOrgs
    ensures Memberless(Run(s, events).db, org)
  {
    RunStaysReachable(s, events);
    ReachableSources(Run(s, events));
    NotFoundedByOther(Run(s, events), org);
    UnfoundedIsMemberless(Run(s, events), org);
  }

  lemma AbandonedHasNoFounder(s: Sys, a: int)
    requires OwnOrgs(s.onboardings) && a in s.onboardings
    requires s.onboardings[a].pc.Abandoned? && s.onboardings[a].pc.left.Some?
    ensures !HasFounder(s.onboardings, s.onboardings[a].pc.left.value)
  {
    forall b | b in s.onboardings && s.onboardings[b].pc.Founded?
      ensures s.onboardings[b].pc.org != s.onboardings[a].pc.left.value
    {
      assert OrgOf(s.onboardings[b]) == Some(s.onboardings[b].pc.org);
    }
  }

  /** A loser of the HasMembership race leaves an organization, and it stays empty for ever. */
  lemma AbandonedOrganizationsStayMemberless(s: Sys, events: seq<Event>, a: int)
    requires Reachable(s) && a in s.onboardings
    requires s.onboardings[a].pc.Abandoned? && s.onboardings[a].pc.left.Some?
    ensures Memberless(Run(s, events).db, s.onboardings[a].pc.left.value)
  {
    AbandonedForGood(s, events, a);
    RunStaysReachable(s, events);
    assert OwnOrgs(Run(s, events).onboardings) by { ReachableSources(Run(s, events)); }
    AbandonedHasNoFounder(Run(s, events), a);
    UnfoundedIsMemberless(Run(s, events), s.onboardings[a].pc.left.value);
  }

  lemma StepLeavesAbandoned(s: Sys, e: Event, a: int)
    requires a in s.onboardings && s.onboardings[a].pc.Abandoned?
    ensures a in Next(s, e).onboardings && Next(s, e).onboardings[a] == s.onboardings[a]
  {
    if e.Serve? { RequestLeavesAttempts(s, e.request); }
  }

  lemma {:induction false} AbandonedForGood(s: Sys, events: seq<Event>, a: int)
    requires a in s.onboardings && s.onboardings[a].pc.Abandoned?
    ensures a in Run(s, events).onboardings && Run(s, events).onboardings[a] == s.onboardings[a]
    decreases |events|
  {
    if events != [] {
      StepLeavesAbandoned(s, events[0], a);
      AbandonedForGood(Next(s, events[0]), events[1..], a);
    }
  }
}
