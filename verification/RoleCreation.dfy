/** CreateRole commits exactly when it should, and bootstrapping is idempotent. */
module RoleCreation {
  import opened Prelude
  import opened Tables
  import opened UniqueStrings
  import opened Transactions
  import opened Invariant
  import opened Preservation

  /** Ids of the permissions a request names. */
  function Named(permissions: map<Uuid, string>, names: seq<string>): map<Uuid, string> {
    map p | p in permissions && permissions[p] in names :: permissions[p]
  }

  lemma NamedSizes(permissions: map<Uuid, string>, org: string, role: Uuid, names: seq<string>)
    requires UniqueNames(permissions)
    ensures |RequestedRows(permissions, org, role, names)| == |Elements(names) * permissions.Values|
  {
    var m := Named(permissions, names);
    forall p, q | p in m && q in m && m[p] == m[q] ensures p == q {
      assert permissions[p] == permissions[q];
    }
    InjectiveMapSize(m);
    forall n ensures n in m.Values <==> n in Elements(names) * permissions.Values {
      if n in Elements(names) * permissions.Values {
        var p := PickKey(permissions, n);
        assert p in m && m[p] == n;
      }
    }
    assert m.Values == Elements(names) * permissions.Values;
    var rows := map p | p in m :: RolePermission(org, role, p);
    forall p, q | p in rows && q in rows && rows[p] == rows[q] ensures p == q {
      assert rows[p].permission == p && rows[q].permission == q;
    }
    InjectiveMapSize(rows);
    forall rp ensures rp in rows.Values <==> rp in RequestedRows(permissions, org, role, names) {
      if rp in RequestedRows(permissions, org, role, names) {
        assert rp.permission in rows && rows[rp.permission] == rp;
      }
    }
    assert rows.Values == RequestedRows(permissions, org, role, names);
    assert rows.Keys == m.Keys;
    assert |rows| == |rows.Keys| && |m| == |m.Keys|;
  }

  /** Comparing RowsAffected with the number of distinct names is a test of set inclusion. */
  lemma RowCountTestsInclusion(permissions: map<Uuid, string>, org: string, role: Uuid, names: seq<string>)
    requires UniqueNames(permissions)
    ensures |RequestedRows(permissions, org, role, names)| == |Unique(names)|
       <==> forall n :: n in names ==> n in permissions.Values
  {
    NamedSizes(permissions, org, role, names);
    UniqueKeepsElements(names);
    var known := Elements(names) * permissions.Values;
    SubsetOfSameSize(known, Elements(names));
    if forall n :: n in names ==> n in permissions.Values {
      assert known == Elements(names);
    } else {
      var n :| n in names && n !in permissions.Values;
      assert n in Elements(names) && n !in known;
    }
  }

  lemma AllRowsAreNew(db: Db, org: string, role: Uuid, rows: set<RolePermission>)
    requires RolePermissionKeys(db.rolePermissions, db.roles, db.permissions) && role !in db.roles
    requires forall x :: x in rows ==> x.role == role
    ensures NewRows(db.rolePermissions, rows) == rows
  {
  }

  /** For a fresh id, CreateRole commits iff the name is free and every permission is known. */
  lemma CreateRoleCommitsExactly(db: Db, org: string, name: string, names: seq<string>, id: Uuid)
    requires Constraints(db) && org != "" && id !in db.roles
    ensures CreateRole(db, org, name, names, id).Some?
       <==> !HasRole(db.roles, org, name) && forall n :: n in names ==> n in db.permissions.Values
  {
    if !HasRole(db.roles, org, name) && names != [] {
      var rows := RequestedRows(db.permissions, org, id, names);
      AllRowsAreNew(db, org, id, rows);
      RowCountTestsInclusion(db.permissions, org, id, names);
    }
  }

  lemma GrantedNames(db: Db, org: string, name: string, names: seq<string>, id: Uuid, after: Db)
    requires after.permissions == db.permissions && id in after.roles && after.roles[id].org == org
    requires RolePermissionKeys(db.rolePermissions, db.roles, db.permissions) && id !in db.roles
    requires forall n :: n in names ==> n in db.permissions.Values
    requires after.rolePermissions == db.rolePermissions + RequestedRows(db.permissions, org, id, names)
    ensures PermissionsOfRole(after, id) == Elements(names)
  {
    var rows := RequestedRows(db.permissions, org, id, names);
    forall n | n in Elements(names) ensures n in PermissionsOfRole(after, id) {
      var p := PickKey(db.permissions, n);
      assert RolePermission(org, id, p) in rows;
    }
    forall n | n in PermissionsOfRole(after, id) ensures n in Elements(names) {
      var p :| p in after.permissions && RolePermission(org, id, p) in after.rolePermissions
               && after.permissions[p] == n;
      assert RolePermission(org, id, p) in rows;
    }
  }

  lemma OtherRoleUnchanged(db: Db, after: Db, id: Uuid, r: Uuid)
    requires after.permissions == db.permissions && r in db.roles && r in after.roles && after.roles[r] == db.roles[r]
    requires r != id && db.rolePermissions <= after.rolePermissions
    requires forall rp :: rp in after.rolePermissions && rp !in db.rolePermissions ==> rp.role == id
    ensures PermissionsOfRole(after, r) == PermissionsOfRole(db, r)
  {
    assert forall p :: RolePermission(db.roles[r].org, r, p) in after.rolePermissions
                  <==> RolePermission(db.roles[r].org, r, p) in db.rolePermissions;
  }

  /** The new role then has exactly the requested permissions, and no other role changed. */
  lemma CreatedRoleHasExactlyTheRequested(db: Db, org: string, name: string, names: seq<string>, id: Uuid)
    requires Constraints(db) && CreateRole(db, org, name, names, id).Some?
    ensures var after := CreateRole(db, org, name, names, id).value;
            && after.roles == db.roles[id := Role(org, name)]
            && PermissionsOfRole(after, id) == Elements(names)
            && forall r :: r in db.roles ==> PermissionsOfRole(after, r) == PermissionsOfRole(db, r)
  {
    CreateRoleEffect(db, org, name, names, id);
    CreateRoleCommitsExactly(db, org, name, names, id);
    var after := CreateRole(db, org, name, names, id).value;
    var rows := RequestedRows(db.permissions, org, id, names);
    AllRowsAreNew(db, org, id, rows);
    assert after.rolePermissions == db.rolePermissions + rows;
    GrantedNames(db, org, name, names, id, after);
    forall r | r in db.roles ensures PermissionsOfRole(after, r) == PermissionsOfRole(db, r) {
      OtherRoleUnchanged(db, after, id, r);
    }
  }

  /** The service removes duplicates before it calls the repository; that changes no outcome. */
  lemma DeduplicationIsHarmless(db: Db, org: string, name: string, names: seq<string>, id: Uuid)
    ensures CreateRole(db, org, name, Unique(names), id) == CreateRole(db, org, name, names, id)
  {
    UniqueKeepsElements(names);
    UniqueIdempotent(names);
    assert forall n :: n in Unique(names) <==> n in names;
    assert names == [] <==> Unique(names) == [] by {
      if names != [] { assert names[0] in Unique(names); }
    }
    if InsertRole(db, org, name, id).Some? {
      var tx := InsertRole(db, org, name, id).value;
      assert RequestedRows(tx.permissions, org, id, Unique(names)) == RequestedRows(tx.permissions, org, id, names);
    }
  }

  lemma {:induction false} InsertPresentRoles(roles: map<Uuid, Role>, org: string, names: seq<string>, ids: seq<Uuid>)
    requires |names| == |ids| && forall n :: n in names ==> HasRole(roles, org, n)
    ensures InsertRoles(roles, org, names, ids) == Some(roles)
    decreases |names|
  {
    if names != [] {
      assert HasRole(roles, org, names[0]);
      InsertPresentRoles(roles, org, names[1..], ids[1..]);
    }
  }

  lemma EveryRowIsPresent(before: set<RolePermission>, after: set<RolePermission>, rows: set<RolePermission>)
    requires after == before + NewRows(before, rows)
    ensures NewRows(after, rows) == {}
  {
    forall x | x in rows ensures exists y :: y in after && SamePair(x, y) {
      if y :| y in before && SamePair(x, y) {
        assert y in after;
      } else {
        assert x in NewRows(before, rows);
        assert x in after && SamePair(x, x);
      }
    }
  }

  /** Bootstrapping a second time, whatever ids it draws, changes nothing. */
  lemma BootstrapIsIdempotent(db: Db, org: string, ids: seq<Uuid>, again: seq<Uuid>)
    requires |ids| == 4 && |again| == 4 && UniqueRoles(db.roles) && BootstrapDefaultRolesTx(db, org, ids).Some?
    ensures var after := BootstrapDefaultRolesTx(db, org, ids).value;
            BootstrapDefaultRolesTx(after, org, again) == Some(after)
  {
    BootstrapEffect(db, org, ids);
    var after := BootstrapDefaultRolesTx(db, org, ids).value;
    assert forall n :: n in DEFAULT_ROLES ==> IsDefaultRole(n);
    InsertPresentRoles(after.roles, org, DEFAULT_ROLES, again);
    var rows := DefaultGrantRows(after.roles, after.permissions, org);
    EveryRowIsPresent(db.rolePermissions, after.rolePermissions, rows);
    assert after.rolePermissions + {} == after.rolePermissions;
  }
}
