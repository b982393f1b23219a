/**
 * An acceptance that dies between its two writes leaves the membership behind,
 * and no later attempt can get past it. This module says exactly when a pending
 * invitation can still be accepted.
 */
module Retries {
  import opened Prelude
  import opened Tables
  import opened Transactions
  import opened Steps
  import opened Invariant
  import opened Preservation
  import opened AttemptPreservation
  import opened Runs

  ghost predicate EmailHeld(users: map<Uuid, User>, email: string) {
    exists u :: u in users && users[u].email == email
  }

  /** Some attempt has joined with this invitation and has yet to mark it. */
  ghost predicate MarkPending(acceptances: map<int, Acceptance>, token: string) {
    exists a :: a in acceptances && acceptances[a].token == token && acceptances[a].pc.Joined?
  }

  /** Some attempt has read this invitation and its identity is still without a membership. */
  ghost predicate JoinPending(s: Sys, token: string) {
    exists a :: a in s.acceptances && s.acceptances[a].token == token && s.acceptances[a].pc.Read?
                && MembershipRows(s.db.users, s.acceptances[a].identity) == {}
  }

  /** What a caller could check: the condition under which an acceptance may still go through from `now` on. */
  ghost predicate Acceptable(s: Sys, token: string, now: int)
    requires token in s.db.invitations
  {
    || MarkPending(s.acceptances, token)
    || (!EmailHeld(s.db.users, s.db.invitations[token].email)
        && (now <= s.db.invitations[token].expiresAt || JoinPending(s, token)))
  }

  /** Every invitation read in the run is read at `now` or later. */
  ghost predicate From(events: seq<Event>, now: int) {
    forall k :: 0 <= k < |events| && events[k].Accept? && events[k].astep.ReadInvitation? ==> now <= events[k].astep.now
  }

  ghost predicate Hopeless(s: Sys, token: string, now: int) {
    && token in s.db.invitations && s.db.invitations[token].acceptedAt.None?
    && !Acceptable(s, token, now)
  }

  // ----- A hopeless invitation stays hopeless -----

  lemma JoinWithHeldEmailFails(s: Sys, a: int, id: Uuid)
    requires a in s.acceptances && s.acceptances[a].pc.Read? && EmailHeld(s.db.users, s.acceptances[a].email)
    ensures JoinAcceptance(s, a, id).acceptances[a].pc.Dropped? && JoinAcceptance(s, a, id).db == s.db
  {
  }

  lemma JoinOfMemberFails(s: Sys, a: int, id: Uuid)
    requires Bridge(s.db.users, s.db.identities)
    requires a in s.acceptances && s.acceptances[a].pc.Read?
    requires MembershipRows(s.db.users, s.acceptances[a].identity) != {}
    ensures JoinAcceptance(s, a, id).acceptances[a].pc.Dropped? && JoinAcceptance(s, a, id).db == s.db
  {
    var u := PickElement(MembershipRows(s.db.users, s.acceptances[a].identity));
    assert ZitadelOf(s.db, s.acceptances[a].identity) == Some(s.db.users[u].zitadel);
  }

  lemma HeldEmailStaysHeld(s: Sys, t: Sys, email: string)
    requires Kept(s.db.users, t.db.users) && EmailHeld(s.db.users, email)
    ensures EmailHeld(t.db.users, email)
  {
    var u :| u in s.db.users && s.db.users[u].email == email;
    assert u in t.db.users && t.db.users[u].email == email;
  }

  lemma MembershipStays(s: Sys, t: Sys, identity: Uuid)
    requires Kept(s.db.users, t.db.users) && MembershipRows(s.db.users, identity) != {}
    ensures MembershipRows(t.db.users, identity) != {}
  {
    var u := PickElement(MembershipRows(s.db.users, identity));
    assert u in MembershipRows(t.db.users, identity);
  }

  /** An attempt on a hopeless invitation never gets to `Joined`. */
  lemma HopelessAcceptanceStep(s: Sys, a: int, e: AcceptanceStep, token: string, now: int)
    requires Hopeless(s, token, now)
    requires AcceptancesOk(s) && Bridge(s.db.users, s.db.identities)
    requires e.ReadInvitation? ==> now <= e.now
    requires AcceptancesKept(s.acceptances, OnAcceptance(s, a, e).acceptances)
    ensures var t := OnAcceptance(s, a, e);
            && !MarkPending(t.acceptances, token)
            && t.db.invitations[token] == s.db.invitations[token]
            && (!EmailHeld(s.db.users, s.db.invitations[token].email) ==>
                  forall b :: b in t.acceptances && b !in s.acceptances && t.acceptances[b].token == token ==>
                                !t.acceptances[b].pc.Read?)
  {
    var t := OnAcceptance(s, a, e);
    if a in s.acceptances && s.acceptances[a].token == token {
      assert AcceptanceOk(s, s.acceptances[a]);
      assert !s.acceptances[a].pc.Joined?;
      if e.JoinAsInvited? && s.acceptances[a].pc.Read? {
        if EmailHeld(s.db.users, s.db.invitations[token].email) {
          JoinWithHeldEmailFails(s, a, e.id);
        } else {
          JoinOfMemberFails(s, a, e.id);
        }
      }
    }
    forall b | b in t.acceptances && t.acceptances[b].token == token ensures !t.acceptances[b].pc.Joined? {
      assert b != a ==> b in s.acceptances && t.acceptances[b] == s.acceptances[b];
    }
  }

  lemma StaysHopeless(s: Sys, t: Sys, token: string, now: int)
    requires Hopeless(s, token, now) && Kept(s.db.users, t.db.users)
    requires token in t.db.invitations && t.db.invitations[token] == s.db.invitations[token]
    requires !MarkPending(t.acceptances, token)
    requires EmailHeld(s.db.users, s.db.invitations[token].email)
             || forall b :: b in t.acceptances && t.acceptances[b].token == token && t.acceptances[b].pc.Read? ==>
                              b in s.acceptances && t.acceptances[b] == s.acceptances[b]
    ensures Hopeless(t, token, now)
  {
    if EmailHeld(s.db.users, s.db.invitations[token].email) {
      HeldEmailStaysHeld(s, t, s.db.invitations[token].email);
    } else {
      forall b | b in t.acceptances && t.acceptances[b].token == token && t.acceptances[b].pc.Read?
        ensures MembershipRows(t.db.users, t.acceptances[b].identity) != {}
      {
        assert !JoinPending(s, token);
        MembershipStays(s, t, t.acceptances[b].identity);
      }
    }
  }

  lemma ServedStaysHopeless(s: Sys, e: Request, token: string, now: int)
    requires UniqueRoles(s.db.roles) && Hopeless(s, token, now)
    ensures Hopeless(OnRequest(s, e), token, now)
  {
    var org, user, i := RequestServes(s, e);
    StaysHopeless(s, OnRequest(s, e), token, now);
  }

  lemma OnboardedStaysHopeless(s: Sys, a: int, e: OnboardingStep, token: string, now: int)
    requires UniqueRoles(s.db.roles) && Hopeless(s, token, now)
    ensures Hopeless(OnOnboarding(s, a, e), token, now)
  {
    if OnOnboarding(s, a, e) != s {
      var org, user := OnboardingAdds(s, a, e);
      StaysHopeless(s, OnOnboarding(s, a, e), token, now);
    }
  }

  lemma AcceptedStaysHopeless(s: Sys, a: int, e: AcceptanceStep, token: string, now: int)
    requires Hopeless(s, token, now) && AcceptancesOk(s) && Bridge(s.db.users, s.db.identities)
    requires e.ReadInvitation? ==> now <= e.now
    ensures Hopeless(OnAcceptance(s, a, e), token, now)
  {
    if OnAcceptance(s, a, e) != s {
      AcceptanceExtends(s, a, e);
      HopelessAcceptanceStep(s, a, e, token, now);
      var t := OnAcceptance(s, a, e);
      forall b | b in t.acceptances && b in s.acceptances && t.acceptances[b].pc.Read?
        ensures t.acceptances[b] == s.acceptances[b]
      {
      }
      StaysHopeless(s, t, token, now);
    }
  }

  lemma NextStaysHopeless(s: Sys, e: Event, token: string, now: int)
    requires Inv(s) && Hopeless(s, token, now)
    requires e.Accept? && e.astep.ReadInvitation? ==> now <= e.astep.now
    ensures Hopeless(Next(s, e), token, now)
  {
    match e
    case Serve(request) => ServedStaysHopeless(s, request, token, now);
    case Onboard(a, step) => OnboardedStaysHopeless(s, a, step, token, now);
    case Accept(a, step) => AcceptedStaysHopeless(s, a, step, token, now);
  }

  lemma {:induction false} HopelessForGood(s: Sys, events: seq<Event>, token: string, now: int)
    requires Inv(s) && Hopeless(s, token, now) && From(events, now)
    ensures Hopeless(Run(s, events), token, now)
    decreases |events|
  {
    if events != [] {
      NextStaysHopeless(s, events[0], token, now);
      NextKeepsInv(s, events[0]);
      assert From(events[1..], now);
      HopelessForGood(Next(s, events[0]), events[1..], token, now);
    }
  }

  // ----- An acceptable invitation can be accepted -----

  /** After these events, the first read of them at `now` or later, the invitation is accepted. */
  ghost predicate Accepts(s: Sys, events: seq<Event>, token: string, now: int) {
    && From(events, now)
    && token in Run(s, events).db.invitations && Run(s, events).db.invitations[token].acceptedAt.Some?
  }

  ghost predicate CanBeAccepted(s: Sys, token: string, now: int) {
    exists events :: Accepts(s, events, token, now)
  }

  /** Logins and the steps of attempts: what needs neither a membership nor a permission. */
  ghost predicate Unaided(events: seq<Event>) {
    forall k :: 0 <= k < |events| && events[k].Serve? ==>
                  events[k].request.NewIdentity? || events[k].request.ChangeIdentity?
  }

  ghost predicate CanBeAcceptedUnaided(s: Sys, token: string, now: int) {
    exists events :: Unaided(events) && Accepts(s, events, token, now)
  }

  lemma CanAfterRun(s: Sys, first: seq<Event>, token: string, now: int)
    requires From(first, now) && Unaided(first)
    requires CanBeAcceptedUnaided(Run(s, first), token, now)
    ensures CanBeAcceptedUnaided(s, token, now)
  {
    var rest :| Unaided(rest) && Accepts(Run(s, first), rest, token, now);
    RunAppends(s, first, rest);
    assert Unaided(first + rest) && Accepts(s, first + rest, token, now);
  }

  lemma CanAfterStep(s: Sys, a: int, e: AcceptanceStep, token: string, now: int)
    requires e.ReadInvitation? ==> now <= e.now
    requires CanBeAcceptedUnaided(Next(s, Accept(a, e)), token, now)
    ensures CanBeAcceptedUnaided(s, token, now)
  {
    RunOne(s, Accept(a, e));
    CanAfterRun(s, [Accept(a, e)], token, now);
  }

  lemma PendingMarkSucceeds(s: Sys, token: string, now: int)
    requires token in s.db.invitations && MarkPending(s.acceptances, token)
    ensures CanBeAcceptedUnaided(s, token, now)
  {
    var a :| a in s.acceptances && s.acceptances[a].token == token && s.acceptances[a].pc.Joined?;
    var t := Next(s, Accept(a, MarkInvitation(now)));
    assert Unaided([]) && Accepts(t, [], token, now);
    CanAfterStep(s, a, MarkInvitation(now), token, now);
  }

  /** The insert commits for a stored identity without a membership, a free address and a new id. */
  lemma FreeMembershipCommits(db: Db, org: string, identity: Uuid, email: string, roleName: string, id: Uuid)
    requires Bridge(db.users, db.identities) && org != "" && identity in db.identities && id !in db.users
    requires MembershipRows(db.users, identity) == {} && !EmailHeld(db.users, email)
    requires UniqueIdentities(db.identities)
    ensures CreateMembershipWithRole(db, org, identity, email, roleName, id).Some?
  {
    forall u | u in db.users ensures db.users[u].zitadel != db.identities[identity].zitadel {
      assert u !in MembershipRows(db.users, identity);
    }
  }

  lemma InvitedOrgHasName(s: Sys, token: string)
    requires Reachable(s) && token in s.db.invitations
    ensures s.db.invitations[token].org != ""
  {
    ReachableInv(s);
    var a :| a in s.onboardings && s.onboardings[a].pc.Founded?
             && s.onboardings[a].pc.org == s.db.invitations[token].org;
    assert OnboardingOk(s, s.onboardings[a]);
  }

  /** An attempt that has read an invitation joins if its identity has no membership and the address is free. */
  lemma PendingJoinSucceeds(s: Sys, a: int, now: int)
    requires Reachable(s) && a in s.acceptances && s.acceptances[a].pc.Read?
    requires MembershipRows(s.db.users, s.acceptances[a].identity) == {}
    requires !EmailHeld(s.db.users, s.acceptances[a].email)
    ensures CanBeAcceptedUnaided(s, s.acceptances[a].token, now)
  {
    var c := s.acceptances[a];
    assert AcceptanceOk(s, c) by { ReachableAttempts(s); }
    var id := FreshInt(s.db.users.Keys);
    assert c.pc.inv.org != "" by { InvitedOrgHasName(s, c.token); }
    assert CreateMembershipWithRole(s.db, c.pc.inv.org, c.identity, c.email, c.pc.inv.roleName, id).Some? by {
      ReachableStore(s);
      FreeMembershipCommits(s.db, c.pc.inv.org, c.identity, c.email, c.pc.inv.roleName, id);
    }
    var t := Next(s, Accept(a, JoinAsInvited(id)));
    assert t.acceptances[a].token == c.token && t.acceptances[a].pc.Joined?;
    PendingMarkSucceeds(t, c.token, now);
    CanAfterStep(s, a, JoinAsInvited(id), c.token, now);
  }

  // ----- Anybody may come to log in with an address -----

  lemma EmailsInUse(identities: map<Uuid, Identity>) returns (emails: set<string>)
    ensures forall i :: i in identities ==> identities[i].email in emails
  {
    emails := set i | i in identities :: identities[i].email;
  }

  lemma ProviderIdsInUse(identities: map<Uuid, Identity>) returns (ids: set<string>)
    ensures forall i :: i in identities ==> identities[i].zitadel in ids
  {
    ids := set i | i in identities :: identities[i].zitadel;
  }

  /** `t` is `s` but for the addresses of identities and the sessions. */
  ghost predicate OnlyLogins(s: Sys, t: Sys) {
    && t == s.(db := s.db.(identities := t.db.identities), sessions := t.sessions)
    && IdentitiesKept(s.db.identities, t.db.identities) && s.sessions <= t.sessions
  }

  /** A login with an address nobody has is stored. */
  lemma LoginChangesAddress(s: Sys, i: Uuid, other: string)
    requires UniqueIdentities(s.db.identities) && i in s.db.identities
    requires forall j :: j in s.db.identities ==> s.db.identities[j].email != other
    ensures var row := s.db.identities[i];
            Next(s, Serve(ChangeIdentity(row.zitadel, other, row.name)))
            == s.(db := s.db.(identities := s.db.identities[i := row.(email := other)]),
                  sessions := s.sessions + {(i, other)})
  {
    var row := s.db.identities[i];
    assert IdentityByZitadel(s.db, row.zitadel) == Some(i);
    assert row.(email := other) == Identity(row.zitadel, other, row.name);
  }

  lemma AddressVacated(before: map<Uuid, Identity>, i: Uuid, other: string, keep: Uuid)
    requires UniqueIdentities(before) && i in before && i != keep && before[i].email != other
    ensures !EmailTaken(before[i := before[i].(email := other)], before[i].email, keep)
  {
  }

  /** Whoever holds the address may log in with another one first. */
  lemma VacateAddress(s: Sys, keep: Uuid, email: string) returns (events: seq<Event>)
    requires UniqueIdentities(s.db.identities)
    ensures Unaided(events) && forall k :: 0 <= k < |events| ==> events[k].Serve?
    ensures OnlyLogins(s, Run(s, events)) && Run(s, events).db.identities.Keys == s.db.identities.Keys
    ensures !EmailTaken(Run(s, events).db.identities, email, keep)
  {
    events := [];
    if EmailTaken(s.db.identities, email, keep) {
      var i :| i in s.db.identities && i != keep && s.db.identities[i].email == email;
      var row := s.db.identities[i];
      var emails := EmailsInUse(s.db.identities);
      var other := FreshString(emails);
      var e := Serve(ChangeIdentity(row.zitadel, other, row.name));
      LoginChangesAddress(s, i, other);
      AddressVacated(s.db.identities, i, other, keep);
      RunOne(s, e);
      events := [e];
    }
  }

  /** A newcomer logs in with the address and has a session for it. */
  lemma NewcomerLogsIn(s: Sys, email: string) returns (events: seq<Event>, identity: Uuid)
    requires UniqueIdentities(s.db.identities)
    ensures Unaided(events) && forall k :: 0 <= k < |events| ==> events[k].Serve?
    ensures OnlyLogins(s, Run(s, events)) && identity !in s.db.identities
    ensures (identity, email) in Run(s, events).sessions
  {
    identity := FreshInt(s.db.identities.Keys);
    var vacate := VacateAddress(s, identity, email);
    var t := Run(s, vacate);
    var ids := ProviderIdsInUse(t.db.identities);
    var zitadel := FreshString(ids);
    var e := Serve(NewIdentity(identity, Identity(zitadel, email, "")));
    assert identity !in t.db.identities;
    events := vacate + [e];
    RunAppends(s, vacate, [e]);
    RunOne(t, e);
  }

  /** Someone new can log in with the address of an unexpired invitation, and accept it if no user holds it. */
  lemma UnexpiredCanBeRead(s: Sys, token: string, now: int)
    requires Reachable(s) && token in s.db.invitations && s.db.invitations[token].acceptedAt.None?
    requires !EmailHeld(s.db.users, s.db.invitations[token].email) && now <= s.db.invitations[token].expiresAt
    ensures CanBeAcceptedUnaided(s, token, now)
  {
    ReachableStore(s);
    var inv := s.db.invitations[token];
    var logins, identity := NewcomerLogsIn(s, inv.email);
    var t := Run(s, logins);
    RunStaysReachable(s, logins);
    var a := FreshInt(t.acceptances.Keys);
    var read := ReadInvitation(token, identity, inv.email, now);
    var u := Next(t, Accept(a, read));
    RunOne(t, Accept(a, read));
    RunStaysReachable(t, [Accept(a, read)]);
    UnknownHasNoMembership(s.db, identity);
    PendingJoinSucceeds(u, a, now);
    CanAfterStep(t, a, read, token, now);
    CanAfterRun(s, logins, token, now);
  }

  lemma UnknownHasNoMembership(db: Db, identity: Uuid)
    requires Bridge(db.users, db.identities) && identity !in db.identities
    ensures MembershipRows(db.users, identity) == {}
  {
    forall u ensures u !in MembershipRows(db.users, identity) {
    }
  }

  /**
   * Exactly when a pending invitation can still be accepted: an attempt has only
   * the mark left to write, or no user holds the address and the invitation is
   * either unexpired or already read by someone without a membership. Where it
   * can, logins and the steps of attempts suffice; where it cannot, nothing
   * anybody does helps.
   */
  lemma AcceptableExactly(s: Sys, token: string, now: int)
    requires Reachable(s) && token in s.db.invitations && s.db.invitations[token].acceptedAt.None?
    ensures CanBeAccepted(s, token, now) <==> Acceptable(s, token, now)
    ensures CanBeAcceptedUnaided(s, token, now) <==> Acceptable(s, token, now)
  {
    if !Acceptable(s, token, now) {
      forall events | From(events, now) ensures !Accepts(s, events, token, now) {
        ReachableInv(s);
        HopelessForGood(s, events, token, now);
      }
    } else {
      AcceptableCanBeAccepted(s, token, now);
    }
  }

  lemma AcceptableCanBeAccepted(s: Sys, token: string, now: int)
    requires Reachable(s) && token in s.db.invitations && s.db.invitations[token].acceptedAt.None?
    requires Acceptable(s, token, now)
    ensures CanBeAcceptedUnaided(s, token, now)
  {
    if MarkPending(s.acceptances, token) {
      PendingMarkSucceeds(s, token, now);
    } else if now <= s.db.invitations[token].expiresAt {
      UnexpiredCanBeRead(s, token, now);
    } else {
      var a :| a in s.acceptances && s.acceptances[a].token == token && s.acceptances[a].pc.Read?
               && MembershipRows(s.db.users, s.acceptances[a].identity) == {};
      assert AcceptanceOk(s, s.acceptances[a]) by { ReachableAttempts(s); }
      PendingJoinSucceeds(s, a, now);
    }
  }

  /** While its one joiner has yet to mark it, an invitation is unaccepted. */
  lemma JoinedIsUnmarked(s: Sys, a: int)
    requires Reachable(s) && a in s.acceptances && s.acceptances[a].pc.Joined?
    requires s.acceptances[a].token in s.db.invitations
    ensures s.db.invitations[s.acceptances[a].token].acceptedAt.None?
  {
    if s.db.invitations[s.acceptances[a].token].acceptedAt.Some? {
      var b := MarkedAcceptance(s, s.acceptances[a].token);
      OneJoinerPerEmail(s, a, b);
      assert false;
    }
  }

  /** Losing the connection between the two writes is final, however soon it happens. */
  lemma CrashBeforeMarkIsFinal(s: Sys, a: int, now: int)
    requires Reachable(s) && a in s.acceptances && s.acceptances[a].pc.Joined?
    ensures var t, token := Next(s, Accept(a, AbandonAcceptance)), s.acceptances[a].token;
            && token in t.db.invitations && t.db.invitations[token].acceptedAt.None?
            && !CanBeAccepted(t, token, now)
  {
    var e := Accept(a, AbandonAcceptance);
    var t := Next(s, e);
    var token := s.acceptances[a].token;
    assert AcceptanceOk(s, s.acceptances[a]) by { ReachableAttempts(s); }
    JoinedIsUnmarked(s, a);
    RunOne(s, e);
    RunStaysReachable(s, [e]);
    assert EmailHeld(t.db.users, t.db.invitations[token].email) by {
      assert t.db.users[s.acceptances[a].pc.user].email == t.db.invitations[token].email;
    }
    if MarkPending(t.acceptances, token) {
      var b :| b in t.acceptances && t.acceptances[b].token == token && t.acceptances[b].pc.Joined?;
      OneJoinerPerEmail(t, a, b);
    }
    AcceptableExactly(t, token, now);
  }
}
