/**
 * Role administration is isolated by purging: with the users table fixed,
 * deleting the role steps of any set of tenants from a run changes no answer
 * any other tenant gets. Only the predicates on organization_id in the queries
 * and the composite foreign keys are relied on, not row-level security.
 */
module TenantIsolation {
  import opened Prelude
  import opened Tables
  import opened Transactions
  import opened Invariant
  import opened Preservation
  import opened Steps
  import opened Runs
  import opened UniqueStrings

  datatype RoleStep =
    | Create(org: string, name: string, names: seq<string>, id: Uuid)
    | Bootstrap(org: string, ids: seq<Uuid>)
    | Assign(org: string, user: Uuid, role: Uuid)
    | Remove(org: string, user: Uuid, role: Uuid)

  function Transaction(db: Db, step: RoleStep): Option<Db> {
    match step
    case Create(org, name, names, id) => CreateRole(db, org, name, names, id)
    case Bootstrap(org, ids) => if |ids| == 4 then BootstrapDefaultRoles(db, org, ids) else None
    case Assign(org, user, role) => AssignRoleToUser(db, org, user, role)
    case Remove(org, user, role) => RemoveRoleFromUser(db, org, user, role)
  }

  function Apply(db: Db, step: RoleStep): Db {
    match Transaction(db, step)
    case None => db
    case Some(after) => after
  }

  function ApplyAll(db: Db, steps: seq<RoleStep>): Db
    decreases |steps|
  {
    if steps == [] then db else ApplyAll(Apply(db, steps[0]), steps[1..])
  }

  function Purge(steps: seq<RoleStep>, dropped: set<string>): seq<RoleStep>
    decreases |steps|
  {
    if steps == [] then []
    else (if steps[0].org in dropped then [] else [steps[0]]) + Purge(steps[1..], dropped)
  }

  /** Purging takes a run piece by piece. */
  lemma {:induction false} PurgeAppends(first: seq<RoleStep>, second: seq<RoleStep>, dropped: set<string>)
    ensures Purge(first + second, dropped) == Purge(first, dropped) + Purge(second, dropped)
    decreases |first|
  {
    if first == [] {
      assert first + second == second;
    } else {
      assert (first + second)[1..] == first[1..] + second;
      PurgeAppends(first[1..], second, dropped);
    }
  }

  /** And of every step it keeps all occurrences or none, as its tenant is kept or dropped. */
  lemma {:induction false} PurgeCounts(steps: seq<RoleStep>, dropped: set<string>, step: RoleStep)
    ensures multiset(Purge(steps, dropped))[step] == if step.org in dropped then 0 else multiset(steps)[step]
    decreases |steps|
  {
    if steps != [] {
      var head, tail := steps[0], steps[1..];
      PurgeCounts(tail, dropped, step);
      assert steps == [head] + tail;
      CountCons(head, tail, step);
      PurgeStep(steps, dropped);
      if head.org !in dropped {
        assert Purge(steps, dropped) == [head] + Purge(tail, dropped);
        CountCons(head, Purge(tail, dropped), step);
      }
    }
  }

  // ----- The steps of the machine -----

  /** What a role request does to the store, with the organization of its caller. */
  function RoleStepOf(users: map<Uuid, User>, e: Event): Option<RoleStep> {
    if !e.Serve? then None
    else
      match e.request
      case PostRole(caller, name, names, id) =>
        if caller in users then Some(Create(users[caller].org, name, names, id)) else None
      case PostUserRole(caller, user, role) =>
        if caller in users then Some(Assign(users[caller].org, user, role)) else None
      case DeleteUserRole(org, user, role) => Some(Remove(org, user, role))
      case _ => None
  }

  lemma RequestApplies(s: Sys, e: Event)
    requires RoleStepOf(s.db.users, e).Some?
    ensures Next(s, e).db == Apply(s.db, RoleStepOf(s.db.users, e).value) && Next(s, e).db.users == s.db.users
  {
    match e.request
    case PostRole(caller, name, names, id) =>
      if CreateRole(s.db, s.db.users[caller].org, name, names, id).Some? {
        CreateRoleEffect(s.db, s.db.users[caller].org, name, names, id);
      }
    case _ =>
  }

  /** A run of role requests is the run of their steps. */
  lemma {:induction false} RoleRequestsApply(s: Sys, events: seq<Event>, steps: seq<RoleStep>)
    requires |steps| == |events|
    requires forall k :: 0 <= k < |events| ==> RoleStepOf(s.db.users, events[k]) == Some(steps[k])
    ensures Run(s, events).db == ApplyAll(s.db, steps)
    decreases |events|
  {
    if events != [] {
      RequestApplies(s, events[0]);
      assert forall k :: 0 <= k < |events[1..]| ==> events[1..][k] == events[k + 1] && steps[1..][k] == steps[k + 1];
      RoleRequestsApply(Next(s, events[0]), events[1..], steps[1..]);
    }
  }

  /** The roles of a registered organization come from the bootstrap step. */
  lemma RegistrationBootstraps(db: Db, orgId: string, name: string, ids: seq<Uuid>)
    requires |ids| == 4 && orgId != "" && RegisterOrganization(db, orgId, name, ids).Some?
    ensures RegisterOrganization(db, orgId, name, ids).value
         == Apply(db.(organizations := db.organizations[orgId := Organization(orgId, name)]), Bootstrap(orgId, ids))
  {
  }

  /** The ids a step has the database generate. */
  function DrawnIds(step: RoleStep): seq<Uuid> {
    match step
    case Create(_, _, _, id) => [id]
    case Bootstrap(_, ids) => ids
    case _ => []
  }

  ghost predicate Distinct(ids: seq<Uuid>) {
    forall i, j :: 0 <= i < j < |ids| ==> ids[i] != ids[j]
  }

  /** gen_random_uuid never repeats itself: not within the run, nor with rows already there. */
  ghost predicate FreshIds(used: set<Uuid>, steps: seq<RoleStep>)
    decreases |steps|
  {
    steps == [] || (
      var ids := DrawnIds(steps[0]);
      && Distinct(ids) && (forall i :: i in ids ==> i !in used)
      && FreshIds(used + (set i | i in ids), steps[1..]))
  }

  // ----- What a tenant can observe -----

  /** The two stores look alike to every tenant outside `dropped`; `less` has nothing extra. */
  ghost predicate Alike(more: Db, less: Db, dropped: set<string>) {
    && more.users == less.users && more.permissions == less.permissions
    && (forall r :: r in less.roles ==> r in more.roles && more.roles[r] == less.roles[r])
    && (forall r :: r in more.roles && more.roles[r].org !in dropped ==> r in less.roles)
    && (forall rp: RolePermission :: rp.org !in dropped ==>
                                        (rp in more.rolePermissions <==> rp in less.rolePermissions))
    && (forall ur: UserRole :: ur.org !in dropped ==> (ur in more.userRoles <==> ur in less.userRoles))
  }

  lemma AlikeAnswers(more: Db, less: Db, dropped: set<string>, tenant: string)
    requires Alike(more, less, dropped) && tenant !in dropped
    ensures forall user, permission ::
              UserHasPermission(more, tenant, user, permission) == UserHasPermission(less, tenant, user, permission)
    ensures ListedRoles(more, tenant) == ListedRoles(less, tenant)
  {
    forall user, permission
      ensures UserHasPermission(more, tenant, user, permission) == UserHasPermission(less, tenant, user, permission)
    {
      AlikePermission(more, less, dropped, tenant, user, permission);
    }
    forall r | r in less.roles && less.roles[r].org == tenant
      ensures PermissionsOfRole(more, r) == PermissionsOfRole(less, r)
    {
      assert forall p :: RolePermission(tenant, r, p) in more.rolePermissions
                         <==> RolePermission(tenant, r, p) in less.rolePermissions;
    }
    assert ListedRoles(more, tenant) == ListedRoles(less, tenant);
  }

  lemma AlikePermission(more: Db, less: Db, dropped: set<string>, tenant: string, user: Uuid, permission: string)
    requires Alike(more, less, dropped) && tenant !in dropped
    ensures UserHasPermission(more, tenant, user, permission) == UserHasPermission(less, tenant, user, permission)
  {
    if UserHasPermission(more, tenant, user, permission) {
      var r, p :| UserRole(tenant, user, r) in more.userRoles && RolePermission(tenant, r, p) in more.rolePermissions
                  && p in more.permissions && more.permissions[p] == permission;
      assert UserRole(tenant, user, r) in less.userRoles && RolePermission(tenant, r, p) in less.rolePermissions;
    }
    if UserHasPermission(less, tenant, user, permission) {
      var r, p :| UserRole(tenant, user, r) in less.userRoles && RolePermission(tenant, r, p) in less.rolePermissions
                  && p in less.permissions && less.permissions[p] == permission;
      assert UserRole(tenant, user, r) in more.userRoles && RolePermission(tenant, r, p) in more.rolePermissions;
    }
  }

  // ----- Steps keep the keys -----

  ghost predicate Keys(db: Db) {
    && UniqueRoles(db.roles)
    && RolePermissionKeys(db.rolePermissions, db.roles, db.permissions)
  }

  /** Keys hold after, no role went away, and every new role's id was drawn by the step. */
  ghost predicate KeysStep(db: Db, after: Db, step: RoleStep) {
    && Keys(after) && Kept(db.roles, after.roles)
    && (forall r :: r in after.roles && r !in db.roles ==> r in DrawnIds(step))
  }

  lemma CreateKeepsKeys(db: Db, org: string, name: string, names: seq<string>, id: Uuid)
    requires Keys(db) && CreateRole(db, org, name, names, id).Some?
    ensures KeysStep(db, CreateRole(db, org, name, names, id).value, Create(org, name, names, id))
  {
    CreateRoleEffect(db, org, name, names, id);
  }

  lemma BootstrapKeepsKeys(db: Db, org: string, ids: seq<Uuid>)
    requires Keys(db) && |ids| == 4 && BootstrapDefaultRolesTx(db, org, ids).Some?
    ensures KeysStep(db, BootstrapDefaultRolesTx(db, org, ids).value, Bootstrap(org, ids))
  {
    BootstrapEffect(db, org, ids);
    InsertedIdsAreDrawn(db.roles, org, DEFAULT_ROLES, ids);
  }

  lemma ApplyKeepsKeys(db: Db, step: RoleStep)
    requires Keys(db)
    ensures KeysStep(db, Apply(db, step), step)
  {
    if Transaction(db, step).Some? {
      match step
      case Create(org, name, names, id) => CreateKeepsKeys(db, org, name, names, id);
      case Bootstrap(org, ids) => BootstrapKeepsKeys(db, org, ids);
      case _ =>
    }
  }

  lemma {:induction false} InsertedIdsAreDrawn(roles: map<Uuid, Role>, org: string, names: seq<string>, ids: seq<Uuid>)
    requires |names| == |ids| && InsertRoles(roles, org, names, ids).Some?
    ensures forall r :: r in InsertRoles(roles, org, names, ids).value && r !in roles ==> r in ids
    decreases |names|
  {
    if names != [] {
      if HasRole(roles, org, names[0]) {
        InsertedIdsAreDrawn(roles, org, names[1..], ids[1..]);
      } else {
        InsertedIdsAreDrawn(roles[ids[0] := Role(org, names[0])], org, names[1..], ids[1..]);
      }
    }
  }

  // ----- A step of a dropped tenant is invisible -----

  lemma DroppedStep(more: Db, less: Db, dropped: set<string>, step: RoleStep)
    requires Keys(more) && Alike(more, less, dropped) && step.org in dropped
    requires forall i :: i in DrawnIds(step) ==> i !in more.roles
    ensures Alike(Apply(more, step), less, dropped)
  {
    match step
    case Create(org, name, names, id) =>
      if CreateRole(more, org, name, names, id).Some? {
        CreateRoleEffect(more, org, name, names, id);
      }
    case Bootstrap(org, ids) =>
      if Transaction(more, step).Some? {
        BootstrapEffect(more, org, ids);
      }
    case _ =>
  }

  // ----- A step of a kept tenant does the same in both stores -----

  lemma HasRoleAlike(more: Db, less: Db, dropped: set<string>, org: string, name: string)
    requires Alike(more, less, dropped) && org !in dropped
    ensures HasRole(more.roles, org, name) <==> HasRole(less.roles, org, name)
  {
    if HasRole(more.roles, org, name) {
      var r :| r in more.roles && more.roles[r] == Role(org, name);
      assert r in less.roles && less.roles[r] == Role(org, name);
    }
    if HasRole(less.roles, org, name) {
      var r :| r in less.roles && less.roles[r] == Role(org, name);
      assert r in more.roles && more.roles[r] == Role(org, name);
    }
  }

  /** Rows of a kept tenant's roles are new to one store iff they are new to the other. */
  lemma NewRowsAlike(more: Db, less: Db, dropped: set<string>, org: string, rows: set<RolePermission>)
    requires Alike(more, less, dropped) && org !in dropped && Keys(more) && Keys(less)
    requires forall x :: x in rows ==> x.org == org && (x.role in more.roles ==> more.roles[x.role].org == org)
    ensures NewRows(more.rolePermissions, rows) == NewRows(less.rolePermissions, rows)
  {
    forall x | x in rows
      ensures (exists y :: y in more.rolePermissions && SamePair(x, y))
              <==> (exists y :: y in less.rolePermissions && SamePair(x, y))
    {
      if y :| y in more.rolePermissions && SamePair(x, y) {
        assert y.org == org;
        assert y in less.rolePermissions && SamePair(x, y);
      }
      if y :| y in less.rolePermissions && SamePair(x, y) {
        assert y.org == org;
        assert y in more.rolePermissions && SamePair(x, y);
      }
    }
  }

  lemma GrantedAlike(more: Db, less: Db, dropped: set<string>, added: set<RolePermission>)
    requires Alike(more, less, dropped)
    ensures Alike(more.(rolePermissions := more.rolePermissions + added),
                  less.(rolePermissions := less.rolePermissions + added), dropped)
  {
  }

  lemma KeptPermissions(more: Db, less: Db, dropped: set<string>, org: string, id: Uuid, names: seq<string>)
    requires Keys(more) && Keys(less) && Alike(more, less, dropped) && org !in dropped
    requires id in more.roles && more.roles[id].org == org
    ensures var a, b := AssignRolePermissions(more, org, id, names), AssignRolePermissions(less, org, id, names);
            a.Some? == b.Some? && (a.Some? ==> Alike(a.value, b.value, dropped))
  {
    var rows := RequestedRows(more.permissions, org, id, names);
    NewRowsAlike(more, less, dropped, org, rows);
    GrantedAlike(more, less, dropped, NewRows(more.rolePermissions, rows));
  }

  lemma KeptCreate(more: Db, less: Db, dropped: set<string>, org: string, name: string, names: seq<string>, id: Uuid)
    requires Keys(more) && Keys(less) && Alike(more, less, dropped) && org !in dropped && id !in more.roles
    ensures var step := Create(org, name, names, id); Alike(Apply(more, step), Apply(less, step), dropped)
  {
    HasRoleAlike(more, less, dropped, org, name);
    if org != "" && !HasRole(more.roles, org, name) {
      var a, b := InsertRole(more, org, name, id).value, InsertRole(less, org, name, id).value;
      assert Keys(a) && Keys(b) && Alike(a, b, dropped);
      KeptPermissions(a, b, dropped, org, id, names);
    }
  }

  lemma {:induction false} InsertRolesAlike(
    more: map<Uuid, Role>, less: map<Uuid, Role>, dropped: set<string>, org: string, names: seq<string>, ids: seq<Uuid>)
    requires |names| == |ids| && Distinct(ids) && org !in dropped
    requires forall i :: i in ids ==> i !in more
    requires forall r :: r in less ==> r in more && more[r] == less[r]
    requires forall r :: r in more && more[r].org !in dropped ==> r in less
    ensures var a, b := InsertRoles(more, org, names, ids), InsertRoles(less, org, names, ids);
            && a.Some? && b.Some?
            && Kept(more, a.value) && Kept(less, b.value)
            && (forall r :: r in b.value ==> r in a.value && a.value[r] == b.value[r])
            && (forall r :: r in a.value && a.value[r].org !in dropped ==> r in b.value)
            && (forall r :: r in a.value && r !in more ==> a.value[r].org == org && r in b.value)
    decreases |names|
  {
    if names != [] {
      assert HasRole(more, org, names[0]) <==> HasRole(less, org, names[0]) by {
        if HasRole(more, org, names[0]) {
          var r :| r in more && more[r] == Role(org, names[0]);
          assert r in less && less[r] == Role(org, names[0]);
        }
        if HasRole(less, org, names[0]) {
          var r :| r in less && less[r] == Role(org, names[0]);
          assert r in more && more[r] == Role(org, names[0]);
        }
      }
      assert ids[0] in ids;
      assert forall i :: i in ids[1..] ==> i in ids && i != ids[0];
      assert Distinct(ids[1..]);
      if HasRole(more, org, names[0]) {
        InsertRolesAlike(more, less, dropped, org, names[1..], ids[1..]);
      } else {
        var row := Role(org, names[0]);
        InsertRolesAlike(more[ids[0] := row], less[ids[0] := row], dropped, org, names[1..], ids[1..]);
      }
    }
  }

  lemma KeptBootstrap(more: Db, less: Db, dropped: set<string>, org: string, ids: seq<Uuid>)
    requires Keys(more) && Keys(less) && Alike(more, less, dropped) && org !in dropped
    requires |ids| == 4 && Distinct(ids) && forall i :: i in ids ==> i !in more.roles
    ensures var step := Bootstrap(org, ids); Alike(Apply(more, step), Apply(less, step), dropped)
  {
    if org != "" {
      InsertRolesAlike(more.roles, less.roles, dropped, org, DEFAULT_ROLES, ids);
      BootstrapEffect(more, org, ids);
      BootstrapEffect(less, org, ids);
      var a := InsertRoles(more.roles, org, DEFAULT_ROLES, ids).value;
      var b := InsertRoles(less.roles, org, DEFAULT_ROLES, ids).value;
      var rows := DefaultGrantRows(a, more.permissions, org);
      assert rows == DefaultGrantRows(b, less.permissions, org);
      NewRowsAlike(more, less, dropped, org, rows);
    }
  }

  lemma KeptAssign(more: Db, less: Db, dropped: set<string>, org: string, user: Uuid, role: Uuid)
    requires Alike(more, less, dropped) && org !in dropped
    ensures var step := Assign(org, user, role); Alike(Apply(more, step), Apply(less, step), dropped)
  {
  }

  lemma KeptRemove(more: Db, less: Db, dropped: set<string>, org: string, user: Uuid, role: Uuid)
    requires Alike(more, less, dropped) && org !in dropped
    ensures var step := Remove(org, user, role); Alike(Apply(more, step), Apply(less, step), dropped)
  {
  }

  lemma KeptStep(more: Db, less: Db, dropped: set<string>, step: RoleStep)
    requires Keys(more) && Keys(less) && Alike(more, less, dropped) && step.org !in dropped
    requires Distinct(DrawnIds(step)) && forall i :: i in DrawnIds(step) ==> i !in more.roles
    ensures Alike(Apply(more, step), Apply(less, step), dropped)
  {
    match step
    case Create(org, name, names, id) =>
      assert id in DrawnIds(step);
      KeptCreate(more, less, dropped, org, name, names, id);
    case Bootstrap(org, ids) =>
      if |ids| == 4 { KeptBootstrap(more, less, dropped, org, ids); }
    case Assign(org, user, role) => KeptAssign(more, less, dropped, org, user, role);
    case Remove(org, user, role) => KeptRemove(more, less, dropped, org, user, role);
  }

  // ----- Whole runs -----

  /** The full run takes a step; the purged run takes it too, or stays where it is. */
  lemma PurgedStep(more: Db, less: Db, dropped: set<string>, step: RoleStep)
    requires Keys(more) && Keys(less) && Alike(more, less, dropped)
    requires Distinct(DrawnIds(step)) && forall i :: i in DrawnIds(step) ==> i !in more.roles
    ensures Alike(Apply(more, step), if step.org in dropped then less else Apply(less, step), dropped)
    ensures Keys(Apply(more, step)) && Keys(Apply(less, step))
    ensures Apply(more, step).roles.Keys <= more.roles.Keys + set i | i in DrawnIds(step)
  {
    ApplyKeepsKeys(more, step);
    ApplyKeepsKeys(less, step);
    var drawn := set i | i in DrawnIds(step);
    forall r | r in Apply(more, step).roles ensures r in more.roles.Keys + drawn {
      assert r !in more.roles ==> r in DrawnIds(step);
    }
    if step.org in dropped {
      DroppedStep(more, less, dropped, step);
    } else {
      KeptStep(more, less, dropped, step);
    }
  }

  lemma PurgeStep(steps: seq<RoleStep>, dropped: set<string>)
    requires steps != []
    ensures var purged, rest := Purge(steps, dropped), Purge(steps[1..], dropped);
            if steps[0].org in dropped then purged == rest
            else purged != [] && purged[0] == steps[0] && purged[1..] == rest
  {
  }

  lemma {:induction false} PurgedRunsAlike(
    more: Db, less: Db, dropped: set<string>, steps: seq<RoleStep>, used: set<Uuid>)
    requires Keys(more) && Keys(less) && Alike(more, less, dropped)
    requires FreshIds(used, steps) && more.roles.Keys <= used
    ensures Alike(ApplyAll(more, steps), ApplyAll(less, Purge(steps, dropped)), dropped)
    decreases |steps|
  {
    if steps != [] {
      var step := steps[0];
      PurgedStep(more, less, dropped, step);
      PurgeStep(steps, dropped);
      var next := if step.org in dropped then less else Apply(less, step);
      PurgedRunsAlike(Apply(more, step), next, dropped, steps[1..], used + (set i | i in DrawnIds(step)));
    }
  }

  /** Noninterference: other tenants' role steps change neither permission checks nor role listings. */
  lemma PurgingChangesNoAnswer(db: Db, steps: seq<RoleStep>, dropped: set<string>, tenant: string)
    requires Constraints(db) && FreshIds(db.roles.Keys, steps) && tenant !in dropped
    ensures var full, purged := ApplyAll(db, steps), ApplyAll(db, Purge(steps, dropped));
            && (forall user, permission ::
                  UserHasPermission(full, tenant, user, permission)
                  == UserHasPermission(purged, tenant, user, permission))
            && ListedRoles(full, tenant) == ListedRoles(purged, tenant)
  {
    PurgedRunsAlike(db, db, dropped, steps, db.roles.Keys);
    AlikeAnswers(ApplyAll(db, steps), ApplyAll(db, Purge(steps, dropped)), dropped, tenant);
  }

  // ----- Rows that name another tenant's user -----

  /** The foreign keys admit such a row, but it decides no permission check of any tenant. */
  lemma ForeignRowGrantsNothing(db: Db, row: UserRole, org: string, user: Uuid, permission: string)
    requires row.user in db.users && db.users[row.user].org != row.org
    ensures UserHasPermission(db, org, user, permission)
       <==> UserHasPermission(db.(userRoles := db.userRoles - {row}), org, user, permission)
  {
    if UserHasPermission(db, org, user, permission) {
      var r, p :| UserRole(org, user, r) in db.userRoles && RolePermission(org, r, p) in db.rolePermissions
                  && p in db.permissions && db.permissions[p] == permission;
      assert UserRole(org, user, r) != row;
      assert UserRole(org, user, r) in db.userRoles - {row};
    }
  }

  /** Nor does it in any later state of the system, since a user's tenant never changes. */
  lemma ForeignRowNeverGrants(s: Sys, events: seq<Event>, row: UserRole, org: string, user: Uuid, permission: string)
    requires Reachable(s) && row.user in s.db.users && s.db.users[row.user].org != row.org
    ensures var db := Run(s, events).db;
            var without := db.(userRoles := db.userRoles - {row});
            UserHasPermission(db, org, user, permission) == UserHasPermission(without, org, user, permission)
  {
    RunStaysReachable(s, events);
    ForeignRowGrantsNothing(Run(s, events).db, row, org, user, permission);
  }
}
