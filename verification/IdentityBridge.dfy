/** Migration 016: every membership gets the identity that shares its zitadel_user_id. */
module IdentityBridge {
  import opened Prelude
  import opened Tables
  import opened Invariant

  /** A users row before the migration: identity_id is not there yet. */
  datatype LegacyUser = LegacyUser(org: string, zitadel: string, email: string)

  ghost predicate HasIdentity(identities: map<Uuid, Identity>, zitadel: string) {
    exists i :: i in identities && identities[i].zitadel == zitadel
  }

  /** The scalar the UPDATE ... FROM identities joins on. */
  method FindIdentity(identities: map<Uuid, Identity>, zitadel: string) returns (found: Option<Uuid>)
    ensures found.Some? ==> found.value in identities && identities[found.value].zitadel == zitadel
    ensures found.None? ==> !HasIdentity(identities, zitadel)
  {
    var rest := identities;
    while rest != map[]
      invariant forall i :: i in rest ==> i in identities && rest[i] == identities[i]
      invariant forall i :: i in identities && identities[i].zitadel == zitadel ==> i in rest
      decreases |rest|
    {
      ghost var some := PickElement(rest.Keys);
      var i :| i in rest;
      if rest[i].zitadel == zitadel {
        return Some(i);
      }
      rest := rest - {i};
    }
    found := None;
  }

  /** The row after the migration is the row before it plus an identity with its provider id. */
  ghost predicate Bridged(before: LegacyUser, after: User, identities: map<Uuid, Identity>) {
    && LegacyUser(after.org, after.zitadel, after.email) == before
    && after.identity in identities && identities[after.identity].zitadel == after.zitadel
  }

  /**
   * Refuses to run when some user has no identity; otherwise every row gets one,
   * nothing else of it changes, and the bridge holds with no NULL left.
   */
  method Migrate(users: map<Uuid, LegacyUser>, identities: map<Uuid, Identity>)
    returns (migrated: Option<map<Uuid, User>>)
    ensures migrated.Some? <==> forall u :: u in users ==> HasIdentity(identities, users[u].zitadel)
    ensures migrated.Some? ==>
              && migrated.value.Keys == users.Keys
              && (forall u :: u in users ==> Bridged(users[u], migrated.value[u], identities))
              && Bridge(migrated.value, identities)
  {
    var done: map<Uuid, User> := map[];
    var rest := users.Keys;
    while rest != {}
      invariant rest <= users.Keys && done.Keys == users.Keys - rest
      invariant forall u :: u in done ==> Bridged(users[u], done[u], identities)
      decreases |rest|
    {
      ghost var some := PickElement(rest);
      var u :| u in rest;
      var found := FindIdentity(identities, users[u].zitadel);
      if found.None? {
        return None;
      }
      done := done[u := User(users[u].org, found.value, users[u].zitadel, users[u].email)];
      rest := rest - {u};
    }
    forall u | u in users ensures HasIdentity(identities, users[u].zitadel) {
      assert Bridged(users[u], done[u], identities);
    }
    migrated := Some(done);
  }

  /** UNIQUE identities leave the migration no choice: any two backfills that bridge agree. */
  lemma BackfillIsDetermined(identities: map<Uuid, Identity>, a: map<Uuid, User>, b: map<Uuid, User>, u: Uuid)
    requires UniqueIdentities(identities) && Bridge(a, identities) && Bridge(b, identities)
    requires u in a && u in b && a[u].zitadel == b[u].zitadel
    ensures a[u].identity == b[u].identity
  {
    assert identities[a[u].identity].zitadel == identities[b[u].identity].zitadel;
  }
}
