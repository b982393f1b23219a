/** Exactly when an identity can still found an organization. */
module Onboardable {
  import opened Prelude
  import opened Tables
  import opened Transactions
  import opened Steps
  import opened Invariant
  import opened Preservation
  import opened AttemptPreservation
  import opened Runs
  import opened Retries

  /** Some onboarding of the identity with this address that had not succeeded in `s` has in `t`. */
  ghost predicate Founds(s: Sys, t: Sys, identity: Uuid, email: string) {
    exists a :: a in t.onboardings && t.onboardings[a].pc.Founded?
                && t.onboardings[a].identity == identity && t.onboardings[a].email == email
                && !(a in s.onboardings && s.onboardings[a].pc.Founded?)
  }

  ghost predicate CanOnboard(s: Sys, identity: Uuid, email: string) {
    exists events :: Founds(s, Run(s, events), identity, email)
  }

  ghost predicate CanOnboardUnaided(s: Sys, identity: Uuid, email: string) {
    exists events :: Unaided(events) && Founds(s, Run(s, events), identity, email)
  }

  /** What a caller could check. */
  ghost predicate Onboardable(s: Sys, identity: Uuid, email: string) {
    MembershipRows(s.db.users, identity) == {} && !EmailHeld(s.db.users, email)
  }

  // ----- A blocked identity stays blocked -----

  lemma BlockedStays(s: Sys, t: Sys, identity: Uuid, email: string)
    requires Kept(s.db.users, t.db.users) && !Onboardable(s, identity, email)
    ensures !Onboardable(t, identity, email)
  {
    if EmailHeld(s.db.users, email) {
      HeldEmailStaysHeld(s, t, email);
    } else {
      MembershipStays(s, t, identity);
    }
  }

  lemma BlockedMembershipFails(db: Db, org: string, identity: Uuid, email: string, roleName: string, id: Uuid)
    requires Bridge(db.users, db.identities)
    requires MembershipRows(db.users, identity) != {} || EmailHeld(db.users, email)
    ensures CreateMembershipWithRole(db, org, identity, email, roleName, id).None?
  {
    if MembershipRows(db.users, identity) != {} {
      var u := PickElement(MembershipRows(db.users, identity));
      assert ZitadelOf(db, identity) == Some(db.users[u].zitadel);
    }
  }

  /** No step makes a blocked onboarding succeed. */
  lemma BlockedStep(s: Sys, e: Event, identity: Uuid, email: string)
    requires Bridge(s.db.users, s.db.identities) && !Onboardable(s, identity, email)
    ensures !Founds(s, Next(s, e), identity, email)
  {
    var t := Next(s, e);
    if e.Serve? { RequestLeavesAttempts(s, e.request); }
    if Founds(s, t, identity, email) {
      var a :| a in t.onboardings && t.onboardings[a].pc.Founded?
               && t.onboardings[a].identity == identity && t.onboardings[a].email == email
               && !(a in s.onboardings && s.onboardings[a].pc.Founded?);
      assert e.Onboard? && e.a == a && e.ostep.JoinAsOwner?;
      var o := s.onboardings[a];
      BlockedMembershipFails(s.db, o.pc.org, o.identity, o.email, "owner", e.ostep.id);
      assert false;
    }
  }

  lemma NeverFoundsAcross(s: Sys, t: Sys, u: Sys, identity: Uuid, email: string)
    requires OnboardingsKept(t.onboardings, u.onboardings)
    requires !Founds(s, t, identity, email) && !Founds(t, u, identity, email)
    ensures !Founds(s, u, identity, email)
  {
    forall a | a in u.onboardings && u.onboardings[a].pc.Founded?
               && u.onboardings[a].identity == identity && u.onboardings[a].email == email
      ensures a in s.onboardings && s.onboardings[a].pc.Founded?
    {
      assert a in t.onboardings && t.onboardings[a].pc.Founded?;
    }
  }

  lemma {:induction false} BlockedForGood(s: Sys, events: seq<Event>, identity: Uuid, email: string)
    requires Inv(s) && !Onboardable(s, identity, email)
    ensures !Founds(s, Run(s, events), identity, email)
    decreases |events|
  {
    if events != [] {
      var t := Next(s, events[0]);
      BlockedStep(s, events[0], identity, email);
      NextKeepsInv(s, events[0]);
      assert !Onboardable(t, identity, email) by { NextExtends(s, events[0]); BlockedStays(s, t, identity, email); }
      BlockedForGood(t, events[1..], identity, email);
      assert OnboardingsKept(t.onboardings, Run(t, events[1..]).onboardings) by { RunKeepsInv(t, events[1..]); }
      NeverFoundsAcross(s, t, Run(t, events[1..]), identity, email);
    }
  }

  // ----- An unblocked identity can found -----

  lemma NewOrganizationCommits(db: Db) returns (orgId: string, ids: seq<Uuid>)
    ensures |ids| == 4 && orgId != "" && RegisterOrganization(db, orgId, "", ids).Some?
  {
    orgId := FreshString(db.organizations.Keys + {""});
    assert orgId !in db.organizations.Keys + {""};
    var r := FreshInt(db.roles.Keys);
    ids := [r, r + 1, r + 2, r + 3];
    InsertRolesCommits(db.roles, orgId, DEFAULT_ROLES, ids);
  }

  lemma AfterRun(s: Sys, first: seq<Event>, identity: Uuid, email: string)
    requires Reachable(s) && Unaided(first) && CanOnboardUnaided(Run(s, first), identity, email)
    ensures CanOnboardUnaided(s, identity, email)
  {
    var t := Run(s, first);
    RunStaysReachable(s, first);
    var rest :| Unaided(rest) && Founds(t, Run(t, rest), identity, email);
    RunAppends(s, first, rest);
    var u := Run(t, rest);
    var a :| a in u.onboardings && u.onboardings[a].pc.Founded?
             && u.onboardings[a].identity == identity && u.onboardings[a].email == email
             && !(a in t.onboardings && t.onboardings[a].pc.Founded?);
    assert !(a in s.onboardings && s.onboardings[a].pc.Founded?);
    assert Unaided(first + rest) && Founds(s, Run(s, first + rest), identity, email);
  }

  lemma AfterStep(s: Sys, a: int, e: OnboardingStep, identity: Uuid, email: string)
    requires Reachable(s) && CanOnboardUnaided(Next(s, Onboard(a, e)), identity, email)
    ensures CanOnboardUnaided(s, identity, email)
  {
    RunOne(s, Onboard(a, e));
    AfterRun(s, [Onboard(a, e)], identity, email);
  }

  /** An attempt past step 1 joins if its identity has no membership and no user holds the address. */
  lemma RegisteredFounds(s: Sys, a: int)
    requires Reachable(s) && a in s.onboardings && s.onboardings[a].pc.Registered? && s.onboardings[a].pc.org != ""
    requires Onboardable(s, s.onboardings[a].identity, s.onboardings[a].email)
    ensures CanOnboardUnaided(s, s.onboardings[a].identity, s.onboardings[a].email)
  {
    var o := s.onboardings[a];
    var id := FreshInt(s.db.users.Keys);
    assert CreateMembershipWithRole(s.db, o.pc.org, o.identity, o.email, "owner", id).Some? by {
      ReachableStore(s);
      assert OnboardingOk(s, o) by { ReachableAttempts(s); }
      FreeMembershipCommits(s.db, o.pc.org, o.identity, o.email, "owner", id);
    }
    var t := Next(s, Onboard(a, JoinAsOwner(id)));
    assert t.onboardings[a] == o.(pc := Founded(o.pc.org, id));
    RunOne(s, Onboard(a, JoinAsOwner(id)));
    assert Founds(s, t, o.identity, o.email);
    assert Unaided([Onboard(a, JoinAsOwner(id))]);
  }

  /** With a session for the address, the three steps of a new attempt go through. */
  lemma SessionFounds(s: Sys, identity: Uuid, email: string)
    requires Reachable(s) && (identity, email) in s.sessions && Onboardable(s, identity, email)
    ensures CanOnboardUnaided(s, identity, email)
  {
    var a := FreshInt(s.onboardings.Keys);
    var check := CheckMembership(identity, email);
    var t := Next(s, Onboard(a, check));
    assert t == s.(onboardings := s.onboardings[a := Onboarding(identity, email, Checked)]);
    var orgId, ids := NewOrganizationCommits(t.db);
    var register := RegisterOrg(orgId, "", ids);
    var u := Next(t, Onboard(a, register));
    assert u.onboardings[a] == Onboarding(identity, email, Registered(orgId)) && u.db.users == s.db.users;
    assert Reachable(t) by { RunOne(s, Onboard(a, check)); RunStaysReachable(s, [Onboard(a, check)]); }
    assert Reachable(u) by { RunOne(t, Onboard(a, register)); RunStaysReachable(t, [Onboard(a, register)]); }
    RegisteredFounds(u, a);
    AfterStep(t, a, register, identity, email);
    AfterStep(s, a, check, identity, email);
  }

  /** A stored identity may log in with any address, once whoever holds it has another. */
  lemma LogsInWith(s: Sys, identity: Uuid, email: string) returns (events: seq<Event>)
    requires UniqueIdentities(s.db.identities) && identity in s.db.identities
    ensures Unaided(events)
    ensures OnlyLogins(s, Run(s, events)) && (identity, email) in Run(s, events).sessions
  {
    var vacate := VacateAddress(s, identity, email);
    var t := Run(s, vacate);
    var row := t.db.identities[identity];
    var e := Serve(ChangeIdentity(row.zitadel, email, row.name));
    events := vacate + [e];
    RunAppends(s, vacate, [e]);
    RunOne(t, e);
    assert row.zitadel == s.db.identities[identity].zitadel;
    assert IdentityByZitadel(t.db, row.zitadel) == Some(identity);
  }

  /**
   * A stored identity can still complete onboarding with an address exactly when
   * it has no membership and no user row holds the address. Where it can, logins
   * and its own attempt suffice; where it cannot, nothing anybody does helps.
   */
  lemma OnboardableExactly(s: Sys, identity: Uuid, email: string)
    requires Reachable(s) && identity in s.db.identities
    ensures CanOnboard(s, identity, email) <==> Onboardable(s, identity, email)
    ensures CanOnboardUnaided(s, identity, email) <==> Onboardable(s, identity, email)
  {
    if Onboardable(s, identity, email) {
      assert UniqueIdentities(s.db.identities) by { ReachableStore(s); }
      var logins := LogsInWith(s, identity, email);
      RunStaysReachable(s, logins);
      SessionFounds(Run(s, logins), identity, email);
      AfterRun(s, logins, identity, email);
    } else {
      forall events ensures !Founds(s, Run(s, events), identity, email) {
        ReachableInv(s);
        BlockedForGood(s, events, identity, email);
      }
    }
  }

  /**
   * In particular a member who registers a user by provider id and address keeps
   * that identity, and every identity with that address, from ever founding.
   */
  lemma RegisteredUserNeverFounds(
    s: Sys, caller: Uuid, id: Uuid, zitadel: string, address: string, identity: Uuid, email: string)
    requires Reachable(s) && identity in s.db.identities
    requires id !in s.db.users && id in Next(s, Serve(PostUser(caller, id, zitadel, address))).db.users
    requires s.db.identities[identity].zitadel == zitadel || email == address
    ensures !CanOnboard(Next(s, Serve(PostUser(caller, id, zitadel, address))), identity, email)
  {
    var e := Serve(PostUser(caller, id, zitadel, address));
    var t := Next(s, e);
    RunOne(s, e);
    RunStaysReachable(s, [e]);
    assert t.db.users[id].zitadel == zitadel && t.db.users[id].email == address;
    if email == address {
      assert EmailHeld(t.db.users, email);
    } else {
      ReachableStore(t);
      assert t.db.users[id].identity == identity;
      assert id in MembershipRows(t.db.users, identity);
    }
    OnboardableExactly(t, identity, email);
  }
}
