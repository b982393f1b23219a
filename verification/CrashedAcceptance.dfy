/** One run, event by event, that ends in an invitation nobody can ever accept. */
module CrashedAcceptance {
  import opened Prelude
  import opened Tables
  import opened Transactions
  import opened Steps
  import opened Invariant
  import opened Preservation
  import opened AttemptPreservation
  import opened Runs
  import opened Retries
  import opened Onboardable

  const ADA := Identity("p1", "ada@x", "Ada")
  const BOB := Identity("p2", "bob@x", "Bob")
  const INVITED := Invitation("org", "bob@x", "member", 604800, None)

  /** Ada founds an organization and invites Bob. */
  function Inviting(): seq<Event> {
    [ Serve(NewIdentity(1, ADA)),
      Onboard(0, CheckMembership(1, "ada@x")),
      Onboard(0, RegisterOrg("org", "Org", [1, 2, 3, 4])),
      Onboard(0, JoinAsOwner(1)),
      Serve(PostInvitation(1, "bob@x", "member", "token", 604800)) ]
  }

  /** Bob logs in, reads his invitation and joins. */
  function Joining(): seq<Event> {
    [ Serve(NewIdentity(2, BOB)),
      Accept(0, ReadInvitation("token", 2, "bob@x", 0)),
      Accept(0, JoinAsInvited(2)) ]
  }

  /** The connection is lost before the mark. */
  function LosingTheConnection(): Event { Accept(0, AbandonAcceptance) }

  ghost predicate Untouched(s: Sys, t: Sys) {
    t.db.invitations == s.db.invitations && t.acceptances == s.acceptances && t.db.users == s.db.users
  }

  lemma AdaLogsIn(s: Sys)
    requires s.db.identities == map[]
    ensures var t := Next(s, Serve(NewIdentity(1, ADA)));
            && Untouched(s, t) && t.onboardings == s.onboardings && t.db.roles == s.db.roles
            && t.db.organizations == s.db.organizations
            && t.db.identities == map[1 := ADA] && (1, "ada@x") in t.sessions
  {
  }

  lemma AdaRegisters(s: Sys)
    requires s.onboardings == map[] && (1, "ada@x") in s.sessions && s.db.users == map[]
    requires s.db.roles == map[] && s.db.organizations == map[]
    ensures var t := Next(Next(s, Onboard(0, CheckMembership(1, "ada@x"))),
                          Onboard(0, RegisterOrg("org", "Org", [1, 2, 3, 4])));
            && Untouched(s, t) && t.db.identities == s.db.identities
            && t.onboardings == map[0 := Onboarding(1, "ada@x", Registered("org"))]
  {
    assert MembershipRows(s.db.users, 1) == {};
    InsertRolesCommits(map[], "org", DEFAULT_ROLES, [1, 2, 3, 4]);
  }

  lemma AdaInvites(s: Sys)
    requires s.onboardings == map[0 := Onboarding(1, "ada@x", Registered("org"))]
    requires s.db.users == map[] && s.db.identities == map[1 := ADA] && s.db.invitations == map[]
    ensures var t := Next(Next(s, Onboard(0, JoinAsOwner(1))),
                          Serve(PostInvitation(1, "bob@x", "member", "token", 604800)));
            && t.db.invitations == map["token" := INVITED] && t.acceptances == s.acceptances
            && t.db.users == map[1 := User("org", 1, "p1", "ada@x")] && t.db.identities == map[1 := ADA]
  {
    var t := Next(s, Onboard(0, JoinAsOwner(1)));
    assert t.db.users == map[1 := User("org", 1, "p1", "ada@x")];
  }

  /** After the first five events Ada is the only member and the invitation is open. */
  lemma BobIsInvited(s: Sys)
    requires s.db.identities == map[] && s.onboardings == map[] && s.acceptances == map[] && s.db.users == map[]
    requires s.db.roles == map[] && s.db.organizations == map[] && s.db.invitations == map[]
    ensures var t := Run(s, Inviting());
            && t.db.invitations == map["token" := INVITED] && t.acceptances == map[]
            && t.db.users == map[1 := User("org", 1, "p1", "ada@x")] && t.db.identities == map[1 := ADA]
  {
    var e := Inviting();
    AdaLogsIn(s);
    var s1 := Next(s, e[0]);
    AdaRegisters(s1);
    var s3 := Next(Next(s1, e[1]), e[2]);
    AdaInvites(s3);
    var s5 := Next(Next(s3, e[3]), e[4]);
    RunThree(s, [e[0], e[1], e[2]]);
    RunTwo(s3, e[3], e[4]);
    RunAppends(s, [e[0], e[1], e[2]], [e[3], e[4]]);
    assert e == [e[0], e[1], e[2]] + [e[3], e[4]];
  }

  lemma BobReads(s: Sys)
    requires s.db.invitations == map["token" := INVITED] && s.acceptances == map[] && s.db.identities == map[1 := ADA]
    ensures var t := Next(Next(s, Joining()[0]), Joining()[1]);
            && t.acceptances == map[0 := Acceptance("token", 2, "bob@x", Read(INVITED))]
            && t.db == s.db.(identities := map[1 := ADA, 2 := BOB])
  {
    var t := Next(s, Joining()[0]);
    assert t.db.identities == map[1 := ADA, 2 := BOB];
    assert (2, "bob@x") in t.sessions;
  }

  lemma BobIsInserted(s: Sys)
    requires s.acceptances == map[0 := Acceptance("token", 2, "bob@x", Read(INVITED))]
    requires s.db.users == map[1 := User("org", 1, "p1", "ada@x")] && s.db.identities == map[1 := ADA, 2 := BOB]
    ensures var t := JoinAcceptance(s, 0, 2);
            && t.acceptances == map[0 := Acceptance("token", 2, "bob@x", Joined(INVITED, 2))]
            && t.db.users == s.db.users[2 := User("org", 2, "p2", "bob@x")]
            && t.db.invitations == s.db.invitations
  {
    assert ZitadelOf(s.db, 2) == Some("p2");
  }

  /** From there Bob joins. */
  lemma BobJoins(s: Sys)
    requires s.db.invitations == map["token" := INVITED] && s.acceptances == map[]
    requires s.db.users == map[1 := User("org", 1, "p1", "ada@x")] && s.db.identities == map[1 := ADA]
    ensures var t := Run(s, Joining());
            && t.acceptances == map[0 := Acceptance("token", 2, "bob@x", Joined(INVITED, 2))]
            && t.db.users == s.db.users[2 := User("org", 2, "p2", "bob@x")]
            && t.db.invitations == s.db.invitations
  {
    BobReads(s);
    BobIsInserted(Next(Next(s, Joining()[0]), Joining()[1]));
    RunThree(s, Joining());
  }

  lemma RunInThreeParts(s: Sys)
    ensures Run(s, Inviting() + Joining() + [LosingTheConnection()])
         == Next(Run(Run(s, Inviting()), Joining()), LosingTheConnection())
    ensures Run(s, Inviting() + Joining()) == Run(Run(s, Inviting()), Joining())
  {
    RunAppends(s, Inviting(), Joining());
    RunAppends(s, Inviting() + Joining(), [LosingTheConnection()]);
    RunOne(Run(s, Inviting() + Joining()), LosingTheConnection());
  }

  lemma LostConnectionKeepsRows(s: Sys)
    ensures Next(s, LosingTheConnection()).db == s.db
  {
  }

  /** Bob is a member, his invitation is pending, and whatever happens next it stays so. */
  lemma CrashBeforeMarkHappens(s: Sys, now: int)
    requires Fresh(s)
    ensures var t := Run(s, Inviting() + Joining() + [LosingTheConnection()]);
            && 2 in t.db.users && t.db.users[2] == User("org", 2, "p2", "bob@x")
            && "token" in t.db.invitations && t.db.invitations["token"] == INVITED
            && !CanBeAccepted(t, "token", now)
  {
    RunInThreeParts(s);
    var joined := Run(Run(s, Inviting()), Joining());
    assert joined.acceptances == map[0 := Acceptance("token", 2, "bob@x", Joined(INVITED, 2))]
        && 2 in joined.db.users && joined.db.users[2] == User("org", 2, "p2", "bob@x")
        && joined.db.invitations == map["token" := INVITED] by {
      BobIsInvited(s);
      BobJoins(Run(s, Inviting()));
    }
    assert Reachable(joined);
    CrashBeforeMarkIsFinal(joined, 0, now);
    LostConnectionKeepsRows(joined);
  }
}
