# Verified model of the modular monolith

A Dafny 4.11 model of the stateful core of the repository, with proofs about it. Check it with

    dafny verify dfyconfig.toml

## What is modelled

**The relational state machine** (`Tables`, `Transactions`, `Steps`). One value `Db` holds the tables
`identities`, `organizations`, `users`, `permissions`, `roles`, `role_permissions`, `user_roles` and
`invitations`; `Constraints` is what the migrations declare (PRIMARY KEY, UNIQUE, NOT NULL, FOREIGN KEY).
Every SQL statement is a function from a store to the store it leaves, or `None` where it fails, and every
`WithTenantQuery` or `WithTransaction` body is one such function. `Steps.Next` interleaves any number of
requests, onboarding attempts and invitation acceptances; an attempt may be abandoned between any two of its
transactions. `Sys` carries five history variables (rows ever deleted from `user_roles`, users inserted by
`POST /users`, organizations inserted by `POST /organizations`, sessions opened by logins, rows that
`POST /users/{id}/roles` asked for), so that steps and theorems can speak of them.
`Repositories.Pool` is the same code as methods that change a store in place, with a fault injected at begin,
context or commit; each method is proved against the transaction functions, and the two sagas against runs of
`Steps`.

- `Invariant`, `Preservation`, `AttemptPreservation`: one inductive invariant and the proof that every step keeps it.
- `Runs`: what follows for every run from a freshly migrated database (`Reachable`).
- `Retries`: exactly when a pending invitation can still be accepted; `CrashedAcceptance`: a run after which it cannot.
- `Onboardable`: exactly when an identity can still found an organization.
- `Grants`: where every row of `user_roles` comes from, and what a permission check says of whoever holds it.
- `RoleCreation`, `TenantIsolation`: role administration, and its isolation by purging.
- `IdentityBridge`: migration 016, which establishes the identity bridge.

**Components with their own state.** `RateLimit` and `RateAdmission` (token buckets with eviction), `Base64Url`, `Jwks` and
`KeyCache` (JWK decoding, JWKS and discovery caches), `Billing` (subscription webhooks), `Migrations`
(the migration runner), `RoleClaims` (role extraction), `WebhookSignature`, `Entitlements` (usage counters and
checks), `UniqueStrings` and `Ordering` (the two sequence helpers these need).

## Findings

Properties one might expect that the code does not have; each is proved together with its exact condition.

- *An acceptance that fails between its two writes can never be completed* (internal/modules/invitations/service.go:91-110;
  `Retries.CrashBeforeMarkIsFinal`). The membership exists, the invitation stays pending, and each further attempt
  is stopped by the unique e-mail address. `Retries.AcceptableExactly` gives the condition under which a pending
  invitation is still acceptable, both ways, and `CrashedAcceptance.CrashBeforeMarkHappens` a run of nine events
  that ends there.
- *An identity or address that any user row holds can no longer onboard*, however it got there; a member who
  registers a user by provider id and address (internal/repository/user_repository.go:13-71) settles it for good
  (`Onboardable.OnboardableExactly`, `Onboardable.RegisteredUserNeverFounds`).
- *Organizations made by `POST /organizations` never get a member* (internal/router/routes.go:215-218;
  `Runs.PublicOrganizationsStayMemberless`), and neither do those that a failed onboarding leaves behind
  (internal/modules/onboarding/service.go:79-100; `Runs.AbandonedOrganizationsStayMemberless`).
- *A redelivered webhook need not be idle when the store fails* (internal/modules/billing/service.go:211-219): the
  read error is ignored, so the row is written again and a lifecycle status is logged a second time with an empty
  previous status. An event that repeats the current status is dropped with its new plan and period
  (`Billing.RowComesFromOpener`), and takes effect if it is redelivered on a failed read
  (`Billing.DroppedEventOverwrites`). `Billing.ReplayUnderFaultsIsIdleExactly` is the exact condition.
- *Two deliveries for one organization that overlap may be logged as no order of them would be*
  (internal/modules/billing/service.go:211-243): two copies of one activation both write an audit entry
  (`Billing.OverlapLogsTwice`). `Billing.OverlapIsSerialExactly` says which overlaps are harmless.
- *An entitlement check near the top of int64 allows what cannot be stored*
  (internal/modules/entitlements/service.go:66; `Entitlements.CheckAgreesExactly`, `Entitlements.FullCounterIsAllowed`).
- *Of an RSA exponent only the low 64 bits count* (internal/providers/identity/jwks.go:158-162): read as a signed
  number they are refused if they are zero or negative, as for 2^63 and 2^64, and are otherwise taken for the
  exponent, as for 2^64 + 65537 (`Jwks.KeyRoundTripsExactly`, `Jwks.ExponentIsRefusedExactly`).
- *A migration file that begins with the separator has its drop half executed*
  (internal/database/migrate.go:71-75; `Migrations.DropHalfIsExecutedExactly`).
- *A migration whose record is lost is executed again* (internal/database/migrate.go:80-88): once the files are all
  applied, each has run once and once more for every lost record of it (`Migrations.CompletedRunsExecute`,
  `Migrations.LostRecordRunsTwice`).

## Modelling decisions

- Isolation is proved from the explicit `organization_id` predicates and the composite foreign keys. Row-level
  security is not part of the model; the pool-level membership lookups work only where it does not filter them.
- A failed statement is "an error, and the store unchanged". Which sentinel error is returned is not stated,
  because the repositories assert the `pgconn` error type of another driver version.
- A protected request takes its organization from a membership row of the current state. That an earlier
  resolution gives the same row is `Runs.ResolvedMembershipIsStable`.
- Onboarding and acceptance start from a session: the identity it resolves to and the address that the login
  stored (internal/modules/invitations/handler.go:84-90, internal/modules/onboarding/handler.go:45-56). The address
  is that of the login, which a later one may have changed. Which addresses logins present is the identity
  provider's choice.
- The permission checks in front of role administration are not modelled as guards, and `RemoveRoleFromUser`,
  which no route reaches, is a step all the same. So the machine has more runs than the routes allow, and what is
  proved of all its runs holds of theirs. The two theorems that claim that a run exists
  (`Retries.AcceptableExactly`, `Onboardable.OnboardableExactly`) claim one made of logins and of the steps of
  attempts alone, which no permission check guards.
- The two transactions of a webhook delivery are separate steps (`Billing.Act`), which those of other deliveries
  may come between; `Process` is a delivery that nothing interrupts.
- `Founded`, `Joined` and `Marked` mean that the transaction committed; a reply lost on the way back is not a
  separate outcome.
- UUIDs, tokens and instants are inputs. An id that is already taken makes the insert fail; only the purging
  theorem assumes that generated ids do not repeat (`TenantIsolation.FreshIds`).
- Where an iteration order is unspecified (rows of a query, Go maps), the methods pick an arbitrary element.
- The limiter counts in units: a token is 60e9 units and `n` units return per nanosecond, so that a rate of
  `n` per minute is exact. Looking a limiter up and asking it is one step.
- Strings are sequences of characters. Lower-casing is that of ASCII letters, which decides whether a key
  contains "role".

## Model

| member | source | states |
|---|---|---|
| `AttemptPreservation.NextKeepsInv` | internal/router/routes.go:180-396 | every step of every interleaving keeps the whole invariant: constraints, identity bridge, registered organizations with exact default roles, sessions of stored identities, attempts tied to their rows, one source for every organization and membership |
| `Preservation.NextExtends` | internal/router/routes.go:180-396 | no step loses a row of any table but user_roles, changes a user, a role or the frozen part of an invitation, or undoes what an attempt has achieved |
| `Runs.AcceptedInvitationHasMember` | internal/modules/invitations/service.go:73-119 | in every reachable state an accepted invitation has a member in its organization with its e-mail, holding its role unless that very row was removed |
| `Runs.OneMemberPerInvitation` | internal/modules/invitations/service.go:73-119 | two attempts on one invitation can never both create a membership, however they interleave |
| `Runs.OneJoinerPerEmail` | migrations/002_users.sql:5-6 | all invitations ever sent to one address yield at most one membership |
| `Runs.OneAcceptedInvitationPerEmail` | internal/modules/invitations/service.go:73-119 | at most one invitation per address is ever accepted |
| `Runs.InvitationsOnlyGetAccepted` | internal/modules/invitations/repository.go:54-60 | over any run accepted_at never returns to NULL and no other column of an invitation changes |
| `Retries.AcceptableExactly` | internal/modules/invitations/service.go:73-119 | a pending invitation can be accepted by some continuation iff an attempt has only the mark left, or no user holds its address and it is unexpired or already read by someone without a membership; where it can, logins and attempts suffice |
| `Retries.CrashBeforeMarkIsFinal` | internal/modules/invitations/service.go:91-110 | abandoning an attempt between join and mark leaves an invitation that no continuation can accept |
| `CrashedAcceptance.CrashBeforeMarkHappens` | internal/modules/invitations/service.go:91-110 | a run of nine events from a freshly migrated database after which the invited user is a member and the invitation can never be accepted |
| `Onboardable.OnboardableExactly` | internal/modules/onboarding/service.go:68-114 | a stored identity can still complete onboarding with an address iff it has no membership and no user row holds the address; where it can, logins and its own attempt suffice |
| `Onboardable.RegisteredUserNeverFounds` | internal/repository/user_repository.go:13-71 | after a user is registered, neither the identity named by its provider id nor anyone with its address can ever complete onboarding |
| `Retries.JoinedIsUnmarked` | internal/modules/invitations/service.go:108-110 | while its one joiner has yet to mark it, an invitation is unaccepted |
| `Runs.OneMembershipPerIdentity` | internal/repository/user_repository.go:193-209 | an identity has at most one membership although identity_id is not UNIQUE |
| `Runs.MembershipQueriesAgree` | internal/modules/identityresolver/membership.go:42-77 | the unordered LIMIT 1 has one possible answer, and default, list and count agree |
| `Runs.ResolvedMembershipIsStable` | internal/middleware/resolve_membership.go:14-40 | a resolved membership resolves to the same row and tenant in every later state |
| `Preservation.InsertPathsBridge` | internal/repository/user_repository.go:13-234 | each of the three inserts leaves every membership with its identity's provider id |
| `Preservation.SecondMembershipIsRefused` | internal/repository/user_repository.go:13-234 | each of the three inserts fails for an identity that already has a membership |
| `Runs.RoleInsertNeverSilentlyEmpty` | internal/repository/user_repository.go:212-220 | whenever an attempt is about to join, INSERT ... SELECT of its role selects exactly one row |
| `AttemptPreservation.OneNamedRole` | internal/modules/invitations/service.go:18-20 | a registered organization has exactly one role row for each valid role name |
| `Runs.NoRolelessMembership` | internal/modules/onboarding/service.go:84-91 | no attempt leaves a membership without the role it was to get, unless that row was removed |
| `Grants.MembershipCommitsExactly` | internal/repository/user_repository.go:182-234 | membership and role commit iff organization and identity are there, the id is new, and no user has the provider id or address |
| `Grants.MembershipGrantsExactly` | internal/repository/user_repository.go:193-220 | the commit adds that one user, and of user_roles exactly the rows for the named role of that organization |
| `Grants.UserCommitsExactly` | internal/repository/user_repository.go:13-71 | registering a user commits iff the provider id is stored, the id is new, and no user has the provider id or address; it adds that user alone |
| `Grants.EveryGrantHasASource` | internal/router/routes.go:180-396 | in every reachable state each user_roles row was asked for by name, or is the owner role of a founder, or the invited role of a joiner |
| `Grants.InvitedHoldOnlyTheirRole` | internal/modules/invitations/service.go:91-96 | an invited member holds the role of the invitation and, apart from what was assigned, no other |
| `Grants.RegisteredHoldOnlyAssigned` | internal/repository/user_repository.go:13-71 | a user registered by a member holds only what was assigned |
| `Runs.FounderKeepsEveryPermission` | internal/modules/onboarding/service.go:68-114 | a founder passes every permission check in every later state until a role of theirs is removed |
| `Grants.CheckPassesExactly` | internal/modules/rbac/repository.go:303-341 | a check passes iff the member holds a role of the organization that is listed with the name asked for |
| `Grants.OneRolePassesExactly` | internal/modules/rbac/repository.go:303-394 | whoever holds one kind of default role, or none, passes exactly the known names that role stands for |
| `Grants.InvitedPassExactly` | internal/modules/rbac/repository.go:303-341 | in every reachable state an invited member with nothing assigned passes exactly the checks the invited role stands for, while the role is held |
| `Grants.RegisteredPassNothing` | internal/modules/rbac/repository.go:303-341 | in every reachable state a registered user with nothing assigned passes no check anywhere |
| `Runs.DefaultRolesStayExact` | internal/modules/rbac/repository.go:371-394 | in every reachable state of any tenant: owner lists every known permission, admin all but billing.write, member users.read and settings.read, viewer these two reads and those of billing and audit |
| `Runs.OrganizationsAreConserved` | internal/modules/onboarding/service.go:68-114 | organizations = those posted publicly + one per onboarding past step 1 |
| `Runs.OnboardingOrganizationsAccounted` | internal/modules/onboarding/service.go:68-114 | onboardings past step 1 = successes + failures after step 1 + attempts in flight |
| `Runs.MembershipsAreConserved` | internal/repository/user_repository.go:13-234 | memberships = users registered by members + founders + invited joiners, none counted twice |
| `Runs.UnfoundedIsMemberless` | internal/modules/onboarding/service.go:76-100 | an organization has neither members nor invitations iff no onboarding founded it |
| `Runs.PublicOrganizationsStayMemberless` | internal/router/routes.go:215-218 | an organization posted publicly never gets a member or an invitation |
| `Runs.AbandonedOrganizationsStayMemberless` | internal/router/routes.go:522-532 | the organization of an onboarding that lost the membership race stays empty for ever |
| `IdentityBridge.Migrate` | migrations/016_identity_membership_bridge.sql:1-31 | the backfill runs iff no user is without an identity; then every row gets one with its provider id and nothing else changes |
| `IdentityBridge.BackfillIsDetermined` | migrations/016_identity_membership_bridge.sql:24-28 | unique provider ids leave the backfill no choice |
| `Invariant.InsertRolesEffect` | internal/modules/rbac/repository.go:353-365 | ON CONFLICT DO NOTHING keeps all rows, adds only missing names of this tenant, and leaves every name present once |
| `Invariant.BootstrapEffect` | internal/modules/rbac/repository.go:343-401 | bootstrapping is monotone, leaves each default name present and adds roles and grants of its tenant only |
| `Grants.BootstrapListsExactly` | internal/modules/rbac/repository.go:371-394 | each of the four default roles of the tenant gains exactly its documented permissions, any other role none |
| `Grants.RegistrationCommitsExactly` | internal/service/organization_service.go:13-73 | with new ids, a registration commits iff the organization is new |
| `Grants.RegistrationGrantsExactly` | internal/service/organization_service.go:13-73 | it leaves the organization with exactly the four default roles and their documented permissions, and every other role as it was |
| `RoleCreation.BootstrapIsIdempotent` | internal/modules/rbac/repository.go:343-401 | a second bootstrap, whatever ids it draws, changes nothing |
| `RoleCreation.RowCountTestsInclusion` | internal/modules/rbac/repository.go:448-468 | rows affected equals the number of distinct names iff every requested name is a known permission |
| `RoleCreation.CreateRoleCommitsExactly` | internal/modules/rbac/repository.go:161-209 | with a fresh id the transaction commits iff the name is free and every permission is known |
| `RoleCreation.CreatedRoleHasExactlyTheRequested` | internal/modules/rbac/repository.go:161-209 | the new role has exactly the requested permissions and no other role changes |
| `RoleCreation.DeduplicationIsHarmless` | internal/modules/rbac/service.go:83-96 | removing duplicates before the call changes no outcome |
| `UniqueStrings.ComputeUnique` | internal/modules/rbac/repository_helpers.go:49-70 | the loop computes `Unique` |
| `UniqueStrings.UniqueKeepsElements` | internal/modules/rbac/repository_helpers.go:49-70 | same elements, none twice, as many as the set has |
| `UniqueStrings.UniqueKeepsOrder` | internal/modules/rbac/repository_helpers.go:49-70 | kept values stand in the order of their first occurrences |
| `UniqueStrings.UniqueIdempotent` | internal/modules/rbac/repository_helpers.go:49-70 | applying it twice is applying it once |
| `TenantIsolation.PurgingChangesNoAnswer` | internal/modules/rbac/repository.go:71-341 | deleting all role steps of any set of other tenants from any run changes no permission check and no role listing of a tenant |
| `TenantIsolation.PurgeCounts` | internal/modules/rbac/repository.go:71-341 | purging keeps every occurrence of a kept tenant's step and none of a dropped one's |
| `TenantIsolation.PurgeAppends` | internal/modules/rbac/repository.go:71-341 | purging takes a run piece by piece, so it keeps the order |
| `TenantIsolation.RoleRequestsApply` | internal/router/routes.go:180-396 | a run of role requests of the state machine is the run of their role steps |
| `TenantIsolation.RegistrationBootstraps` | internal/service/organization_service.go:13-73 | a registration is the organization row followed by the bootstrap step |
| `TenantIsolation.ForeignRowGrantsNothing` | migrations/008_rbac_foundation.sql:29-39 | a user_roles row naming another tenant's user decides no permission check of anyone |
| `TenantIsolation.ForeignRowNeverGrants` | internal/modules/rbac/repository.go:303-341 | nor does it after any run from there |
| `Repositories.Pool.GetByZitadelUserID` | internal/modules/identity/repository.go:19-29 | finds the identity with the provider id iff there is one |
| `Repositories.Pool.CreateIdentity` | internal/modules/identity/repository.go:43-52 | inserts the row, or fails and changes nothing |
| `Repositories.Pool.UpdateIdentity` | internal/modules/identity/repository.go:54-63 | changes address and name only, and fails without a matching row |
| `Repositories.Pool.FindOrCreateIdentity` | internal/modules/identity/service.go:21-33 | find, then update or create, as `FoundOrCreated` says; if the find fails, an error and nothing changed |
| `Repositories.FoundOrCreatedIdentity` | internal/modules/identity/service.go:21-33 | a login leaves one identity for the provider id with the presented data, under its old id if it had one, and no other row changed |
| `Repositories.LoginSucceedsExactly` | internal/modules/identity/service.go:21-33 | a login goes through iff no one else has its address and a new row's id is new; a fault stops every login that would write |
| `Repositories.Pool.CreateUser` | internal/repository/user_repository.go:13-71 | the transaction commits as specified or leaves the store unchanged |
| `Repositories.Pool.CreateMembershipWithRole` | internal/repository/user_repository.go:182-234 | membership and role row are committed together or not at all: one user, and exactly the rows for the named role |
| `Repositories.Pool.ListMemberships` | internal/modules/identityresolver/membership.go:58-77 | lists every membership row once with its tenant |
| `Repositories.Pool.GetDefaultMembership` | internal/modules/identityresolver/membership.go:42-55 | any matching row, or none iff there is none |
| `Repositories.Pool.RegisterOrganization` | internal/service/organization_service.go:13-73 | organization, roles and permissions are committed together or not at all |
| `Repositories.Pool.CreateRole` | internal/modules/rbac/repository.go:161-209 | role and permissions are committed together or not at all |
| `Repositories.Pool.AssignRoleToUser` | internal/modules/rbac/repository.go:225-259 | adds exactly the row iff it is new and both keys hold; else fails and changes nothing |
| `Repositories.Pool.RemoveRoleFromUser` | internal/modules/rbac/repository.go:261-301 | deletes exactly the row iff it is there; else fails and changes nothing |
| `Repositories.Pool.UserHasPermission` | internal/modules/rbac/repository.go:303-341 | the four-way join as loops: true iff some row of user_roles and one of role_permissions join as the query says |
| `Repositories.Pool.ListRoles` | internal/modules/rbac/repository.go:71-146 | every role of the tenant once, with its name and exactly its permission names |
| `Repositories.Pool.CreateInvitation` | internal/modules/invitations/service.go:56-71 | InvalidRole iff the role is not one of four; else inserts an invitation open for seven days or changes nothing |
| `Repositories.Pool.CompleteOnboarding` | internal/modules/onboarding/service.go:68-114 | a call is a run of the onboarding steps, a fault abandons the attempt where it stands, and a failed membership check starts none; success iff Founded, and then with exactly the organization, the founder and the owner row added; AlreadyOnboarded iff Refused |
| `Repositories.Pool.AcceptInvitation` | internal/modules/invitations/service.go:73-119 | a call is a run of the acceptance steps, a fault abandons the attempt where it stands, and a failed read starts none; success iff Marked, and then with exactly the member, the row for the invited role and accepted_at added; each error iff its check is the first to fail |
| `RateLimit.RateLimiter.Allow` | internal/middleware/ratelimit.go:41-52 | lookup, refill and take as `Admit` says; a denied request only updates lastSeen, and no other visitor changes |
| `RateLimit.RateLimiter.CleanUp` | internal/middleware/ratelimit.go:54-65 | deletes exactly the visitors unseen for longer than the stale timeout, in any order of the keys |
| `RateLimit.EvictionIsInvisible` | internal/middleware/ratelimit.go:41-65 | for every timed trace and any cleanup instants the answers are those of a limiter that never forgets |
| `RateLimit.InvisibleExactly` | internal/middleware/ratelimit.go:14-17 | that holds for all traces iff a bucket refills no later than it can first be evicted |
| `RateLimit.SourceLimitersRefillInTime` | internal/middleware/ratelimit.go:76-119 | the three configured limiters meet the condition |
| `RateLimit.OtherKeysNeverMatter` | internal/middleware/ratelimit.go:41-65 | a key's answers are a function of its own request times alone |
| `RateLimit.WindowBound` | internal/middleware/ratelimit.go:76-119 | in any window of length T a key is allowed at most burst + rate * T requests, evictions included |
| `RateAdmission.RequestAllowedExactly` | internal/middleware/ratelimit.go:41-65 | in any trace a request of a key is allowed iff every window that ends with it stays within burst + rate * T |
| `RateAdmission.WaitIsRewarded` | internal/middleware/ratelimit.go:41-65 | a request that comes one token's time after the last allowed one is allowed, whatever was denied meanwhile |
| `RateAdmission.DenialLeavesNoTrace` | internal/middleware/ratelimit.go:41-52 | deleting a denied request from any trace changes no other answer |
| `RateAdmission.MinuteBounds` | internal/middleware/ratelimit.go:76-119 | in any minute a key is allowed at most 20, 120 and 240 requests at the three limiters |
| `RateAdmission.FirstRequestsAreAllowed` | internal/middleware/ratelimit.go:76-119 | the first 10, 60 and 120 requests of a key are always allowed |
| `RateAdmission.SourceWaitIsRewarded` | internal/middleware/ratelimit.go:76-119 | after 6 s, 1 s and 0.5 s without an allowed request the next one is allowed |
| `RateAdmission.SourceEviction` | internal/middleware/ratelimit.go:14-17 | a cleanup forgets exactly the visitors unseen for more than three minutes |
| `Base64Url.EncodingRoundTrips` | internal/providers/identity/jwks.go:146-156 | decoding undoes unpadded base64url encoding for every byte sequence |
| `Base64Url.DecodesExactly` | internal/providers/identity/jwks.go:146-156 | a text decodes iff its characters but line breaks are of the alphabet and leave no lone symbol; three octets for four symbols |
| `Base64Url.StandardAlphabet` | internal/providers/identity/jwks.go:146-156 | the alphabet is that of section 5 of RFC 4648 |
| `Base64Url.StandardVectors` | internal/providers/identity/jwks.go:146-156 | test vectors of section 10 of RFC 4648 |
| `Base64Url.UIntRoundTrips` | internal/providers/identity/jwks.go:158-167 | Base64urlUInt (section 2 of RFC 7518) decodes to the integer it encodes |
| `Jwks.KeyRoundTripsExactly` | internal/providers/identity/jwks.go:138-168 | a published RSA key is read back iff 1 <= E < 2^63 |
| `Jwks.WideExponentIsTruncated` | internal/providers/identity/jwks.go:158-162 | an exponent of 2^64 + 65537 is read as 65537 |
| `Jwks.ExponentIsRefusedExactly` | internal/providers/identity/jwks.go:158-168 | a spelled key is refused iff the low 64 bits of its exponent, as a signed number, are not positive, and otherwise read with that exponent |
| `Jwks.CollectKeys` | internal/providers/identity/jwks.go:120-130 | the loop computes `KeyMap` |
| `Jwks.KeyMapIsLastValid` | internal/providers/identity/jwks.go:120-130 | per kid the last usable JWK, whatever unusable entries are mixed in, and no kid without one |
| `Jwks.RefusedExactly` | internal/providers/identity/jwks.go:138-162 | a JWK is refused iff it has no kid, is of another type, use or algorithm, does not decode, or has no positive exponent |
| `Jwks.OnlySigningKeysAreTaken` | internal/providers/identity/jwks.go:120-144 | every key taken from a document is that of a named RSA signing JWK of it |
| `KeyCache.Validator.GetDiscovery` | internal/providers/identity/zitadel.go:126-153 | the first matching discovery is kept; another issuer's is refused |
| `KeyCache.Validator.Refresh` | internal/providers/identity/jwks.go:87-136 | replaces keys and expiry on success, leaves both on failure |
| `KeyCache.Validator.ResolveKey` | internal/providers/identity/jwks.go:58-85 | discovery, fresh cached key, else one refresh, as `Validate` says |
| `KeyCache.CacheIsHonest` | internal/providers/identity/jwks.go:58-136 | over every run a returned key was published less than TTL + client timeout before, "not found" concerns a set served during that call, all at the one discovered URI |
| `KeyCache.CachedKeyWasPublished` | internal/providers/identity/jwks.go:58-168 | the same in terms of the documents: the key is the last usable one under its kid in a document served then |
| `KeyCache.FailedCallLeavesNoTrace` | internal/providers/identity/jwks.go:58-136 | deleting a call that fails after discovery from any run changes neither its end nor any other reply |
| `KeyCache.FreshKeyIsServed` | internal/providers/identity/jwks.go:66-72 | over any run, a key of the last set fetched is served from the cache for 300 s after that fetch, whatever a fetch would meet, and the cache stays as it is |
| `KeyCache.UncachedCallFetches` | internal/providers/identity/jwks.go:74-84 | where no such key is cached a call is answered from the set it fetches, Found or NotFound, and fails iff it fetches none |
| `KeyCache.DiscoveryIsFirstMatch` | internal/providers/identity/zitadel.go:126-153 | the discovery in force is the first document of the run whose issuer matches, and there is none before it |
| `KeyCache.DiscoveryIsFinal` | internal/providers/identity/zitadel.go:132-134 | a stored discovery never changes |
| `Billing.BillingService.UpsertSubscriptionByProvider` | internal/modules/billing/repository.go:225-269 | inserts the row or overwrites all of it but the provider, or fails and changes nothing |
| `Billing.BillingService.ProcessWebhookEvent` | internal/modules/billing/service.go:197-246 | an undisturbed delivery with its read and write faults, as `Process` says |
| `Billing.UndisturbedIsProcess` | internal/modules/billing/service.go:197-246 | the two transactions of a delivery that nothing comes between are `Process` |
| `Billing.SuccessExactly` | internal/modules/billing/service.go:207-246 | a delivery whose read succeeds reports success iff the organization then stands at its status, one whose read fails iff it wrote; without success nothing changes |
| `Billing.ChangeIsLogged` | internal/modules/billing/service.go:232-259 | active, past_due and cancelled are each logged under their own action with what went before; no other status is |
| `Billing.CollidesExactly` | migrations/010_billing_foundation.sql:17-23 | the upsert is refused iff its row would share a provider id with another organization |
| `Billing.ProviderIdsStayUnique` | migrations/010_billing_foundation.sql:17-23 | in every interleaving, failures included, no two organizations of a provider share an id |
| `Billing.OrderlyRunsPost` | internal/modules/billing/service.go:197-246 | in every interleaving of all organizations' deliveries, if one organization's neither fail nor overlap, its row and audit entries are what posting its own events in order makes of them |
| `Billing.StatusAndTrail` | internal/modules/billing/service.go:197-259 | in every such interleaving, once its deliveries are finished, the organization's status is its last event's and its audit entries are those of its status changes alone, each with the previous status |
| `Billing.RowComesFromOpener` | internal/modules/billing/repository.go:225-269 | in every such interleaving plan, ids and period come from the event that opens the last block of equal statuses |
| `Billing.RowStaysWithoutChange` | internal/modules/billing/service.go:211-218 | if none of its events differs from the initial status, its row stands and nothing of it is logged |
| `Billing.SomeEventOpensOrNoneDiffers` | internal/modules/billing/service.go:211-218 | one of those two cases always applies |
| `Billing.OverlapIsSerialExactly` | internal/modules/billing/service.go:211-243 | two deliveries read before either is written leave what one order of them would, iff the organizations differ, or one of them is idle, or the second has no lifecycle action |
| `Billing.OverlapLogsTwice` | internal/modules/billing/service.go:211-243 | two overlapping deliveries of one activation leave two audit entries, in turn they leave one |
| `Billing.ReplaysChangeNothing` | internal/modules/billing/service.go:211-218 | without store failures, redelivering any event in place any number of times changes neither rows nor audit |
| `Billing.ReplayUnderFaultsIsIdleExactly` | internal/modules/billing/service.go:211-243 | for every event and fault, a redelivery is idle iff the event is blank, or the read succeeds, or the write fails, or it repeats the row as it stands and has no lifecycle action |
| `Billing.DroppedEventOverwrites` | internal/modules/billing/service.go:211-219 | a change of plan that was dropped goes through when redelivered on a failed read |
| `Ordering.AscendingIsUnique` | internal/modules/authflow/user.go:120-120 | a set of strings has one strictly increasing listing |
| `Ordering.LessExactly` | internal/database/migrate.go:59-59 | one string is before another iff it ends or has the smaller character where they first part |
| `Ordering.SortedIsAscending` | internal/database/migrate.go:59-59 | sorting yields the same strings in increasing order |
| `Migrations.Migrator.ListFiles` | internal/database/migrate.go:48-59 | exactly the names of the non-directories that end in .sql, in order |
| `Migrations.Migrator.Apply` | internal/database/migrate.go:61-88 | executes the up part of pending files and records them in order up to the first failure, as `RunOnce` says |
| `Migrations.Migrator.Migrate` | internal/database/migrate.go:17-91 | the two together; nothing is executed where the tracking table or the directory cannot be read |
| `Migrations.RunsApplyAPrefix` | internal/database/migrate.go:38-90 | across any number of interrupted runs the recorded files are a prefix of the sorted pending list |
| `Migrations.RestartsAreSafe` | internal/database/migrate.go:38-90 | and the concatenated execution log walks the pending files in order, never beginning one before those ahead of it, with one execution per recorded file and one per lost record |
| `Migrations.CompletedRunsExecute` | internal/database/migrate.go:61-88 | once all files are applied each has been executed once and once more per lost record of it, and the log equals that of one uninterrupted run iff no record was lost |
| `Migrations.LostRecordRunsTwice` | internal/database/migrate.go:80-88 | one lost record and a restart execute a file twice |
| `Migrations.SuccessIsFinal` | internal/database/migrate.go:61-88 | after success the applied set is old plus files and the next run executes nothing |
| `Migrations.SucceedsExactly` | internal/database/migrate.go:61-90 | a run succeeds iff it leaves every file recorded, and one that nothing stops does |
| `Migrations.DropHalfIsExecutedExactly` | internal/database/migrate.go:71-75 | the executed text contains the separator iff the file begins with it |
| `Migrations.UpPartExactly` | internal/database/migrate.go:71-75 | what is executed is everything before the first separator, or all of it where there is none or the file begins with it |
| `RoleClaims.AddRoles` | internal/modules/authflow/user.go:125-159 | adds exactly the enabled non-empty role names of one value |
| `RoleClaims.EnabledExactly` | internal/modules/authflow/user.go:161-174 | what disables a role is null, false, the empty string, "false" and the empty object, and nothing else |
| `RoleClaims.RoleKeyExactly` | internal/modules/authflow/user.go:94-99 | a key counts iff it spells "role" somewhere, in capitals or not |
| `RoleClaims.ExtractRoles` | internal/modules/authflow/user.go:88-123 | for every iteration order a strictly increasing sequence of exactly the claimed roles |
| `RoleClaims.OrderNeverShows` | internal/modules/authflow/user.go:88-123 | any two results for the same claims are equal |
| `RoleClaims.OtherClaimsDoNotMatter` | internal/modules/authflow/user.go:93-99 | a claim whose key does not contain "role" in any case contributes nothing |
| `WebhookSignature.VerifyWebhookSignature` | internal/platform/payments/dodo/provider.go:126-176 | accepts iff headers are present, the timestamp is an int64 in the window, the secret decodes without its prefix, and some space-separated element is "v1," plus the MAC of id, timestamp and payload joined by dots; each other outcome iff its check is the first to fail |
| `WebhookSignature.ParsesExactly` | internal/platform/payments/dodo/provider.go:139-142 | a timestamp is read as a number iff that is an int64 and the text is an optional sign, zeros, and its digits |
| `WebhookSignature.WindowIsTheTrueDistance` | internal/platform/payments/dodo/provider.go:144-147 | for every int64 timestamp the wrapping test is the true distance of 300 seconds |
| `WebhookSignature.ClockBoundIsExact` | internal/platform/payments/dodo/provider.go:144-147 | and that holds for all timestamps iff now <= 2^63 - 301 |
| `WebhookSignature.SplitYieldsElements` | internal/platform/payments/dodo/provider.go:165-165 | splitting yields exactly the maximal separator-free stretches |
| `WebhookSignature.VersionedMatch` | internal/platform/payments/dodo/provider.go:166-171 | splitting at the first comma into "v1" and the MAC is being "v1," followed by the MAC |
| `Entitlements.UsageRepository.IncrementUsage` | internal/modules/usage/repository.go:51-69 | the upsert's new value, or an error and nothing changed |
| `Entitlements.UsageRepository.SetUsage` | internal/modules/usage/repository.go:71-89 | the stored value, or an error and nothing changed |
| `Entitlements.UpsertFailsExactly` | internal/modules/usage/repository.go:51-89 | an op fails iff the organization is empty, the argument negative, or the sum beyond int64 |
| `Entitlements.PlansInFigures` | internal/modules/entitlements/model.go:14-58 | the limits of every plan and metric, known or not |
| `Entitlements.PlanInForceExactly` | internal/modules/entitlements/service.go:23-32 | a paid plan is in force iff its subscription is active or trialing |
| `Entitlements.CounterSinceLastSet` | internal/modules/usage/repository.go:51-89 | a counter is its last set value plus the later increments, whatever other counters do |
| `Entitlements.CountersStayInRange` | migrations/013_usage_tracking.sql:5-5 | no counter goes negative or leaves int64 |
| `Entitlements.CanUse` | internal/modules/entitlements/service.go:42-69 | the check on the resolved plan's limit; an error iff the usage read fails |
| `Entitlements.GetEntitlements` | internal/modules/entitlements/service.go:71-103 | one row per metric in order; an error iff some usage read fails |
| `Entitlements.CheckAgreesExactly` | internal/modules/entitlements/service.go:57-66 | for a limited metric, allowed means used + amount <= limit, and means amount <= Remaining, iff the sum fits an int64 |
| `Entitlements.AllowedIffIncrementStaysWithin` | internal/modules/entitlements/service.go:42-69 | that the check allows iff the increment commits a value within the limit, or commits and there is no limit, is true iff the sum fits an int64 |
| `Entitlements.FullCounterIsAllowed` | internal/modules/entitlements/service.go:57-66 | a full counter under a limit of one is allowed one more, which the store then refuses |
| `Entitlements.RowIsCheckForOne` | internal/modules/entitlements/service.go:88-97 | a row is the check for one more unit iff there is no limit or the counter is below the top of int64 |

## Left out

- HTTP handlers, JSON, sessions and cookies, logging, metrics, configuration and the frontend: I/O or single-branch checks.
- Row-level security and the question which database role runs the queries; GetByIdentityID, whose query has no organization predicate.
- Cryptography (hashing, RSA, JWT parsing) and random token generation: function parameters or inputs.
- Mapping of database errors to sentinel errors and status codes.
- The non-atomic paths taken when UsersWithRole is nil; the routes wire the atomic one.
- Audit rows other than those of the webhook machine, and best-effort audit failures.
- Upgrades of databases that already hold rows from before the current schema, apart from migration 016: runs start from freshly migrated tables, while `AttemptPreservation.NextKeepsInv` applies to any state that meets the invariant.
- The BootstrapRBAC handler, which no route reaches: with it a caller could bootstrap an organization that is not registered.
- Repositories.Pool: the store is one value that a transaction replaces; rows are not objects, so nothing is said about aliasing or locking inside the database, whose transactions are taken to be serial.
- RateLimit.RateLimiter.Allow: a `*rate.Limiter` handed out just before its eviction is not modelled separately, nor is floating-point rounding in the token arithmetic.
- Migrations.Migrator.Migrate: failures before the file loop are not told apart; runners at work at the same time, and a listing of applied versions that breaks off early, are not modelled.
- WebhookSignature.VerifyWebhookSignature: base64 decoding of the secret and the keyed hash are parameters.
- Repositories.Pool.ListRoles: the order of the rows, which follows the database's collation.
- CreateCheckoutSession, CreateSubscription and UpdateSubscription: single statements behind a trim.
