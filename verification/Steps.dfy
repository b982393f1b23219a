/**
 * The routed system as a state machine. Each event is one transaction, or one
 * program step of an onboarding or acceptance attempt; a run interleaves any
 * number of attempts, and an attempt may be abandoned between any two of its
 * steps. A transaction that fails leaves the store unchanged.
 */
module Steps {
  import opened Prelude
  import opened Tables
  import opened Transactions

  /** Where a CompleteOnboarding call stands. */
  datatype OnboardingPc =
    | Checked                                // HasMembership answered no
    | Registered(org: string)                // step 1 committed
    | Founded(org: string, user: Uuid)       // step 2 committed
    | Refused                                // already onboarded
    | Abandoned(left: Option<string>)        // failed; the organization step 1 left behind

  datatype Onboarding = Onboarding(identity: Uuid, email: string, pc: OnboardingPc)

  /** Where an AcceptInvitation call stands. */
  datatype AcceptancePc =
    | Read(inv: Invitation)                  // the invitation passed every check
    | Joined(inv: Invitation, user: Uuid)    // membership and role committed
    | Marked(inv: Invitation, user: Uuid)    // accepted_at written
    | Rejected
    | Dropped(inv: Invitation, left: Option<Uuid>)

  datatype Acceptance = Acceptance(token: string, identity: Uuid, email: string, pc: AcceptancePc)

  /**
   * The store, the attempts, and five history variables: the user_roles rows
   * ever deleted, the users inserted by POST /users, the organizations inserted
   * by POST /organizations, the sessions logins have opened, each with the
   * identity it resolves to and the address that login stored, and the
   * user_roles rows that POST /users/{id}/roles has asked for and inserted.
   */
  datatype Sys = Sys(
    db: Db,
    onboardings: map<int, Onboarding>,
    acceptances: map<int, Acceptance>,
    removed: set<UserRole>,
    registered: set<Uuid>,
    publicOrgs: set<string>,
    sessions: set<(Uuid, string)>,
    requested: set<UserRole>)

  /**
   * Requests that are one transaction. `caller` is the membership row that
   * ResolveMembership found for the session; the organization of a protected
   * request is that row's. Ids, tokens and instants are inputs.
   */
  datatype Request =
    | NewIdentity(id: Uuid, row: Identity)
    | ChangeIdentity(zitadel: string, email: string, name: string)
    | PostOrganization(orgId: string, name: string, ids: seq<Uuid>)
    | PostUser(caller: Uuid, id: Uuid, zitadel: string, email: string)
    | PostInvitation(caller: Uuid, email: string, roleName: string, token: string, expiresAt: int)
    | PostRole(caller: Uuid, name: string, names: seq<string>, id: Uuid)
    | PostUserRole(caller: Uuid, user: Uuid, role: Uuid)
    | DeleteUserRole(org: string, user: Uuid, role: Uuid)

  /** The steps of one CompleteOnboarding call. */
  datatype OnboardingStep =
    | CheckMembership(identity: Uuid, email: string)
    | RegisterOrg(orgId: string, name: string, ids: seq<Uuid>)
    | JoinAsOwner(id: Uuid)
    | AbandonOnboarding

  /** The steps of one AcceptInvitation call. */
  datatype AcceptanceStep =
    | ReadInvitation(token: string, identity: Uuid, email: string, now: int)
    | JoinAsInvited(id: Uuid)
    | MarkInvitation(now: int)
    | AbandonAcceptance

  /** Attempts are numbered; a number is used for one attempt only. */
  datatype Event =
    | Serve(request: Request)
    | Onboard(a: int, ostep: OnboardingStep)
    | Accept(a: int, astep: AcceptanceStep)

  // ----- Attempt steps -----

  function OnboardingAt(s: Sys, a: int, pc: OnboardingPc): Sys
    requires a in s.onboardings
  {
    s.(onboardings := s.onboardings[a := s.onboardings[a].(pc := pc)])
  }

  function AcceptanceAt(s: Sys, a: int, pc: AcceptancePc): Sys
    requires a in s.acceptances
  {
    s.(acceptances := s.acceptances[a := s.acceptances[a].(pc := pc)])
  }

  /** The handler resolves the session to a stored identity first, and takes the address from the session. */
  function StartOnboarding(s: Sys, a: int, identity: Uuid, email: string): Sys {
    if a in s.onboardings || (identity, email) !in s.sessions then s
    else
      var pc := if HasMembership(s.db.users, identity) then Refused else Checked;
      s.(onboardings := s.onboardings[a := Onboarding(identity, email, pc)])
  }

  function RegisterOnboarding(s: Sys, a: int, orgId: string, name: string, ids: seq<Uuid>): Sys {
    if a !in s.onboardings || !s.onboardings[a].pc.Checked? || |ids| != 4 then s
    else
      match RegisterOrganization(s.db, orgId, name, ids)
      case None => OnboardingAt(s, a, Abandoned(None))
      case Some(db) => OnboardingAt(s, a, Registered(orgId)).(db := db)
  }

  function JoinOnboarding(s: Sys, a: int, id: Uuid): Sys {
    if a !in s.onboardings || !s.onboardings[a].pc.Registered? then s
    else
      var o := s.onboardings[a];
      match CreateMembershipWithRole(s.db, o.pc.org, o.identity, o.email, "owner", id)
      case None => OnboardingAt(s, a, Abandoned(Some(o.pc.org)))
      case Some(db) => OnboardingAt(s, a, Founded(o.pc.org, id)).(db := db)
  }

  function DropOnboarding(s: Sys, a: int): Sys {
    if a !in s.onboardings then s
    else
      match s.onboardings[a].pc
      case Checked => OnboardingAt(s, a, Abandoned(None))
      case Registered(org) => OnboardingAt(s, a, Abandoned(Some(org)))
      case _ => s
  }

  /** The checks of AcceptInvitation before its first write, in their order. */
  function CheckInvitation(db: Db, token: string, email: string, now: int): Option<Invitation> {
    if token !in db.invitations then None
    else
      var inv := db.invitations[token];
      if inv.acceptedAt.Some? then None
      else if now > inv.expiresAt then None
      else if inv.email != email then None
      else Some(inv)
  }

  /** As with onboarding, identity and address are those of a session. */
  function StartAcceptance(s: Sys, a: int, token: string, identity: Uuid, email: string, now: int): Sys {
    if a in s.acceptances || (identity, email) !in s.sessions then s
    else
      var pc := match CheckInvitation(s.db, token, email, now)
                case None => Rejected
                case Some(inv) => Read(inv);
      s.(acceptances := s.acceptances[a := Acceptance(token, identity, email, pc)])
  }

  function JoinAcceptance(s: Sys, a: int, id: Uuid): Sys {
    if a !in s.acceptances || !s.acceptances[a].pc.Read? then s
    else
      var c := s.acceptances[a];
      match CreateMembershipWithRole(s.db, c.pc.inv.org, c.identity, c.email, c.pc.inv.roleName, id)
      case None => AcceptanceAt(s, a, Dropped(c.pc.inv, None))
      case Some(db) => AcceptanceAt(s, a, Joined(c.pc.inv, id)).(db := db)
  }

  function MarkAcceptance(s: Sys, a: int, now: int): Sys {
    if a !in s.acceptances || !s.acceptances[a].pc.Joined? then s
    else
      var c := s.acceptances[a];
      AcceptanceAt(s, a, Marked(c.pc.inv, c.pc.user)).(db := MarkAccepted(s.db, c.token, now))
  }

  function DropAcceptance(s: Sys, a: int): Sys {
    if a !in s.acceptances then s
    else
      match s.acceptances[a].pc
      case Read(inv) => AcceptanceAt(s, a, Dropped(inv, None))
      case Joined(inv, user) => AcceptanceAt(s, a, Dropped(inv, Some(user)))
      case _ => s
  }

  // ----- Single-transaction steps -----

  function Commit(s: Sys, tx: Option<Db>): Sys {
    match tx
    case None => s
    case Some(db) => s.(db := db)
  }

  /** A login that stores the identity's row opens a session with the address it stored. */
  function StoreLogin(s: Sys, tx: Option<Db>, identity: Option<Uuid>, email: string): Sys {
    match tx
    case None => s
    case Some(db) =>
      s.(db := db, sessions := s.sessions + if identity.Some? then {(identity.value, email)} else {})
  }

  function PublicRegister(s: Sys, orgId: string, name: string, ids: seq<Uuid>): Sys {
    if |ids| != 4 then s
    else
      match RegisterOrganization(s.db, orgId, name, ids)
      case None => s
      case Some(db) => s.(db := db, publicOrgs := s.publicOrgs + {orgId})
  }

  ghost function RegisterUser(s: Sys, caller: Uuid, id: Uuid, zitadel: string, email: string): Sys
    requires caller in s.db.users
  {
    match CreateUser(s.db, s.db.users[caller].org, zitadel, email, id)
    case None => s
    case Some(db) => s.(db := db, registered := s.registered + {id})
  }

  function AssignRole(s: Sys, org: string, user: Uuid, role: Uuid): Sys {
    match AssignRoleToUser(s.db, org, user, role)
    case None => s
    case Some(db) => s.(db := db, requested := s.requested + {UserRole(org, user, role)})
  }

  function RemoveRole(s: Sys, org: string, user: Uuid, role: Uuid): Sys {
    match RemoveRoleFromUser(s.db, org, user, role)
    case None => s
    case Some(db) => s.(db := db, removed := s.removed + {UserRole(org, user, role)})
  }

  ghost function OnRequest(s: Sys, e: Request): Sys {
    match e
    case NewIdentity(id, row) => StoreLogin(s, InsertIdentity(s.db, id, row), Some(id), row.email)
    case ChangeIdentity(zitadel, email, name) =>
      StoreLogin(s, UpdateIdentity(s.db, zitadel, email, name), IdentityByZitadel(s.db, zitadel), email)
    case PostOrganization(orgId, name, ids) => PublicRegister(s, orgId, name, ids)
    case PostUser(caller, id, zitadel, email) =>
      if caller !in s.db.users then s else RegisterUser(s, caller, id, zitadel, email)
    case PostInvitation(caller, email, roleName, token, expiresAt) =>
      if caller !in s.db.users then s
      else Commit(s, CreateInvitation(s.db, s.db.users[caller].org, email, roleName, token, expiresAt))
    case PostRole(caller, name, names, id) =>
      if caller !in s.db.users then s
      else Commit(s, CreateRole(s.db, s.db.users[caller].org, name, names, id))
    case PostUserRole(caller, user, role) =>
      if caller !in s.db.users then s
      else AssignRole(s, s.db.users[caller].org, user, role)
    case DeleteUserRole(org, user, role) => RemoveRole(s, org, user, role)
  }

  function OnOnboarding(s: Sys, a: int, e: OnboardingStep): Sys {
    match e
    case CheckMembership(identity, email) => StartOnboarding(s, a, identity, email)
    case RegisterOrg(orgId, name, ids) => RegisterOnboarding(s, a, orgId, name, ids)
    case JoinAsOwner(id) => JoinOnboarding(s, a, id)
    case AbandonOnboarding => DropOnboarding(s, a)
  }

  function OnAcceptance(s: Sys, a: int, e: AcceptanceStep): Sys {
    match e
    case ReadInvitation(token, identity, email, now) => StartAcceptance(s, a, token, identity, email, now)
    case JoinAsInvited(id) => JoinAcceptance(s, a, id)
    case MarkInvitation(now) => MarkAcceptance(s, a, now)
    case AbandonAcceptance => DropAcceptance(s, a)
  }

  ghost function Next(s: Sys, e: Event): Sys {
    match e
    case Serve(request) => OnRequest(s, request)
    case Onboard(a, step) => OnOnboarding(s, a, step)
    case Accept(a, step) => OnAcceptance(s, a, step)
  }

  ghost function Run(s: Sys, events: seq<Event>): Sys
    decreases |events|
  {
    if events == [] then s else Run(Next(s, events[0]), events[1..])
  }

  lemma RunOne(s: Sys, e: Event)
    ensures Run(s, [e]) == Next(s, e)
  {
    assert Run(Next(s, e), [e][1..]) == Next(s, e);
  }

  lemma RunTwo(s: Sys, e: Event, f: Event)
    ensures Run(s, [e, f]) == Next(Next(s, e), f)
  {
    assert [e, f][1..] == [f];
    RunOne(Next(s, e), f);
  }

  lemma RunThree(s: Sys, events: seq<Event>)
    requires |events| == 3
    ensures Run(s, events) == Next(Next(Next(s, events[0]), events[1]), events[2])
  {
    var rest := events[1..];
    var last := rest[1..];
    assert last[1..] == [];
    assert Run(Next(Next(s, events[0]), events[1]), last) == Next(Next(Next(s, events[0]), events[1]), events[2]);
  }

  /** A freshly migrated database: no rows but the permissions. */
  ghost predicate Fresh(s: Sys) {
    && UniqueNames(s.db.permissions)
    && s == Sys(Db(map[], map[], map[], s.db.permissions, map[], {}, {}, map[]), map[], map[], {}, {}, {}, {}, {})
  }
}
