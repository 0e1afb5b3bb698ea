/**
 Writing roles under row policies: a permissive tenant policy AND a restrictive guard
 that keeps system roles unwritable, with the cascades of the foreign keys.
 */
module RoleWrites {
  import opened Text

  type Id = nat

  type Tenant = nat

  /** A role without a school is shared reference data; a system role is seeded, never edited. */
  datatype Role = Role(school: Option<Id>, isSystem: bool, name: string)

  /** The schools with their tenants, the roles, and the rows of `role_permission`. */
  datatype Db = Db(schools: map<Id, Tenant>, roles: map<Id, Role>, permissions: set<(Id, Id)>) {
    predicate Valid() {
      && (forall r | r in roles :: roles[r].school.Some? ==> roles[r].school.value in schools)
      && (forall p | p in permissions :: p.0 in roles)
    }
  }

  /** How the guards are composed with the tenant policy. */
  datatype Guards = Restrictive | Permissive | Dropped

  // ------------------------------------------------------------ the policies

  /** `tenant_isolation` on `role`: no school, or a school of the tenant. */
  predicate InTenant(db: Db, a: Tenant, role: Role) {
    role.school.None? || (role.school.value in db.schools && db.schools[role.school.value] == a)
  }

  /** Restrictive policies are AND-ed with the permissive one, permissive ones OR-ed. */
  predicate Compose(guards: Guards, tenant: bool, guard: bool) {
    match guards
    case Restrictive => tenant && guard
    case Permissive => tenant || guard
    case Dropped => tenant
  }

  predicate MayWriteRole(db: Db, a: Tenant, role: Role, guards: Guards) {
    Compose(guards, InTenant(db, a, role), !role.isSystem)
  }

  /** The policies of `role_permission` judge the role the row belongs to. */
  predicate MayWritePermission(db: Db, a: Tenant, role: Id, guards: Guards) {
    role in db.roles && MayWriteRole(db, a, db.roles[role], guards)
  }

  // ------------------------------------------------------------ the statements

  datatype Statement =
    | InsertRole(id: Id, role: Role)
    | UpdateRole(id: Id, newId: Id, role: Role)
    | DeleteRole(id: Id)
    | InsertPermission(id: Id, permission: Id)
    | DeletePermission(id: Id, permission: Id)
    | InsertSchool(id: Id)
    | UpdateSchool(id: Id, newId: Id)
    | DeleteSchool(id: Id)

  /** Rows written, an error raised, or silently no row matched. */
  datatype Outcome = Done | Raised | NoRows

  predicate SchoolExists(db: Db, role: Role) {
    role.school.Some? ==> role.school.value in db.schools
  }

  /** `ON UPDATE CASCADE` on `role_permission.role_id`. */
  function Renamed(permissions: set<(Id, Id)>, id: Id, newId: Id): set<(Id, Id)> {
    set p | p in permissions :: (if p.0 == id then newId else p.0, p.1)
  }

  /** `ON UPDATE CASCADE` on `role.school_id`. */
  function Moved(role: Role, id: Id, newId: Id): Role {
    if role.school == Some(id) then role.(school := Some(newId)) else role
  }

  function WithoutRoles(db: Db, gone: set<Id>): Db {
    db.(roles := db.roles - gone, permissions := set p | p in db.permissions && p.0 !in gone)
  }

  function RolesOf(db: Db, school: Id): set<Id> {
    set r | r in db.roles && db.roles[r].school == Some(school)
  }

  /**
   One statement of tenant `a`. `USING` filters the rows an UPDATE or DELETE sees, in
   silence; `WITH CHECK`, the unique keys and the foreign keys raise.
   */
  function Execute(db: Db, a: Tenant, s: Statement, guards: Guards): (r: (Db, Outcome))
    requires db.Valid()
    ensures r.0.Valid()
    ensures r.1 != Done ==> r.0 == db
  {
    match s
    case InsertRole(id, role) =>
      if id in db.roles || !SchoolExists(db, role) || !MayWriteRole(db, a, role, guards) then (db, Raised)
      else (db.(roles := db.roles[id := role]), Done)
    case UpdateRole(id, newId, role) =>
      if id !in db.roles || !MayWriteRole(db, a, db.roles[id], guards) then (db, NoRows)
      else if !SchoolExists(db, role) || !MayWriteRole(db, a, role, guards)
          || (newId != id && newId in db.roles) then (db, Raised)
      else (db.(roles := (db.roles - {id})[newId := role], permissions := Renamed(db.permissions, id, newId)), Done)
    case DeleteRole(id) =>
      if id !in db.roles || !MayWriteRole(db, a, db.roles[id], guards) then (db, NoRows)
      else (WithoutRoles(db, {id}), Done)
    case InsertPermission(id, permission) =>
      if (id, permission) in db.permissions || !MayWritePermission(db, a, id, guards) then (db, Raised)
      else (db.(permissions := db.permissions + {(id, permission)}), Done)
    case DeletePermission(id, permission) =>
      if (id, permission) !in db.permissions || !MayWritePermission(db, a, id, guards) then (db, NoRows)
      else (db.(permissions := db.permissions - {(id, permission)}), Done)
    case InsertSchool(id) =>
      if id in db.schools then (db, Raised)
      else (db.(schools := db.schools[id := a]), Done)
    case UpdateSchool(id, newId) =>
      if id !in db.schools || db.schools[id] != a then (db, NoRows)
      else if newId != id && newId in db.schools then (db, Raised)
      else (Db((db.schools - {id})[newId := a], map r | r in db.roles :: Moved(db.roles[r], id, newId),
          db.permissions), Done)
    case DeleteSchool(id) =>
      if id !in db.schools || db.schools[id] != a then (db, NoRows)
      else
        var rest := WithoutRoles(db, RolesOf(db, id));
        (rest.(schools := rest.schools - {id}), Done)
  }

  /** A run: the statements of one tenant, in order. */
  function Run(db: Db, a: Tenant, run: seq<Statement>, guards: Guards): (after: Db)
    requires db.Valid()
    ensures after.Valid()
    decreases |run|
  {
    if run == [] then db else Run(Execute(db, a, run[0], guards).0, a, run[1..], guards)
  }

  // ------------------------------------------------------------ write safety

  /** A shared system role, or a role of another tenant's school. */
  predicate Protected(db: Db, a: Tenant, id: Id)
    requires db.Valid()
  {
    && id in db.roles
    && if db.roles[id].school.None? then db.roles[id].isSystem else db.schools[db.roles[id].school.value] != a
  }

  function PermissionsOf(db: Db, id: Id): set<Id> {
    set p | p in db.permissions && p.0 == id :: p.1
  }

  /** A role and its permission rows are what they were. */
  predicate Untouched(db: Db, after: Db, id: Id)
    requires id in db.roles
  {
    id in after.roles && after.roles[id] == db.roles[id] && PermissionsOf(after, id) == PermissionsOf(db, id)
  }

  /** No statement of the tenant touches a protected role, and it stays protected. */
  lemma ProtectedStep(db: Db, a: Tenant, s: Statement, id: Id)
    requires db.Valid() && Protected(db, a, id)
    ensures var after := Execute(db, a, s, Restrictive).0;
            Untouched(db, after, id) && Protected(after, a, id)
  {
    var after := Execute(db, a, s, Restrictive).0;
    assert !MayWriteRole(db, a, db.roles[id], Restrictive);
    forall p
      ensures p in PermissionsOf(after, id) <==> p in PermissionsOf(db, id)
    {
      assert p in PermissionsOf(db, id) <==> (id, p) in db.permissions;
      assert p in PermissionsOf(after, id) <==> (id, p) in after.permissions;
      assert (id, p) in after.permissions <==> (id, p) in db.permissions by { SamePermissions(db, a, s, id, p); }
    }
  }

  lemma SamePermissions(db: Db, a: Tenant, s: Statement, id: Id, p: Id)
    requires db.Valid() && Protected(db, a, id)
    ensures (id, p) in Execute(db, a, s, Restrictive).0.permissions <==> (id, p) in db.permissions
  {
    match s
    case UpdateRole(was, newId, _) =>
      if Execute(db, a, s, Restrictive).1 == Done {
        assert was != id && newId != id;
        forall q | q in db.permissions
          ensures (if q.0 == was then newId else q.0, q.1) == (id, p) <==> q == (id, p)
        {
        }
      }
    case _ =>
  }

  /**
   Write safety: over every run of one tenant, shared system roles, the roles of other
   tenants' schools and the permission rows of both never change.
   */
  lemma {:induction false} ProtectedRun(db: Db, a: Tenant, run: seq<Statement>, id: Id)
    requires db.Valid() && Protected(db, a, id)
    ensures Untouched(db, Run(db, a, run, Restrictive), id) && Protected(Run(db, a, run, Restrictive), a, id)
    decreases |run|
  {
    if run != [] {
      ProtectedStep(db, a, run[0], id);
      ProtectedRun(Execute(db, a, run[0], Restrictive).0, a, run[1..], id);
    }
  }

  /** One statement that changes a role which is not protected. */
  lemma UnprotectedIsReached(db: Db, a: Tenant, id: Id) returns (s: Statement)
    requires db.Valid() && id in db.roles && !Protected(db, a, id)
    ensures !Untouched(db, Execute(db, a, s, Restrictive).0, id)
  {
    var role := db.roles[id];
    if role.isSystem {
      // its own school takes it along
      s := DeleteSchool(role.school.value);
      assert id in RolesOf(db, role.school.value);
    } else {
      s := DeleteRole(id);
    }
  }

  /** Exactly the protected roles are out of a tenant's reach. */
  lemma ReachIff(db: Db, a: Tenant, id: Id)
    requires db.Valid() && id in db.roles
    ensures (forall run :: Untouched(db, Run(db, a, run, Restrictive), id)) <==> Protected(db, a, id)
  {
    if Protected(db, a, id) {
      forall run
        ensures Untouched(db, Run(db, a, run, Restrictive), id)
      {
        ProtectedRun(db, a, run, id);
      }
    } else {
      var s := UnprotectedIsReached(db, a, id);
      var after := Execute(db, a, s, Restrictive).0;
      assert Run(after, a, [], Restrictive) == after;
      assert [s][1..] == [];
      assert Run(db, a, [s], Restrictive) == after;
      assert !Untouched(db, Run(db, a, [s], Restrictive), id);
    }
  }

  /** No run makes a system role: what is one afterwards was one before. */
  lemma {:induction false} NoSystemRoleIsMade(db: Db, a: Tenant, run: seq<Statement>, id: Id)
    requires db.Valid()
    requires id in Run(db, a, run, Restrictive).roles && Run(db, a, run, Restrictive).roles[id].isSystem
    ensures id in db.roles && db.roles[id].isSystem
    decreases |run|
  {
    if run != [] {
      NoSystemRoleIsMade(Execute(db, a, run[0], Restrictive).0, a, run[1..], id);
    }
  }

  // ------------------------------------------------------------ what the guards are for

  /** Guards that are permissive, or dropped, let every tenant rename a shared system role. */
  lemma GuardsMustRestrict(db: Db, a: Tenant, id: Id, name: string, guards: Guards)
    requires db.Valid() && id in db.roles && guards != Restrictive
    requires db.roles[id].school.None? && db.roles[id].isSystem && db.roles[id].name != name
    ensures Protected(db, a, id)
    ensures var r := Execute(db, a, UpdateRole(id, id, db.roles[id].(name := name)), guards);
            r.1 == Done && r.0.roles[id].name == name && !Untouched(db, r.0, id)
  {
  }

  /** Permissive guards also open the custom roles of other tenants. */
  lemma PermissiveGuardsCrossTenants(db: Db, a: Tenant, id: Id)
    requires db.Valid() && Protected(db, a, id) && !db.roles[id].isSystem
    ensures Execute(db, a, DeleteRole(id), Permissive).1 == Done
    ensures id !in Execute(db, a, DeleteRole(id), Permissive).0.roles
    ensures Execute(db, a, DeleteRole(id), Dropped).1 == NoRows
  {
  }

  /** The admitted limit: a custom role without a school is written by every tenant. */
  lemma SchoolLessCustomIsOpen(db: Db, a: Tenant, id: Id, name: string)
    requires db.Valid() && id in db.roles && db.roles[id].school.None? && !db.roles[id].isSystem
    ensures Execute(db, a, UpdateRole(id, id, db.roles[id].(name := name)), Restrictive).0.roles[id].name == name
    ensures id !in Execute(db, a, DeleteRole(id), Restrictive).0.roles
  {
  }

  /** Clearing the school of an own role opens it to every other tenant, and no policy can see it. */
  lemma ClearingTheSchoolPromotes(db: Db, a: Tenant, b: Tenant, id: Id)
    requires db.Valid() && id in db.roles && InTenant(db, a, db.roles[id]) && !db.roles[id].isSystem
    requires a != b && db.roles[id].school.Some?
    ensures var after := Execute(db, a, UpdateRole(id, id, db.roles[id].(school := None)), Restrictive);
            && Protected(db, b, id)
            && after.1 == Done && !Protected(after.0, b, id)
            && id !in Execute(after.0, b, DeleteRole(id), Restrictive).0.roles
  {
  }

  /**
   The refusals of the write matrix and how each one shows: what `WITH CHECK` refuses
   raises, what `USING` refuses touches no row and says nothing.
   */
  lemma RefusalMatrix(db: Db, a: Tenant, id: Id, role: Role, permission: Id)
    requires db.Valid()
    // a system role inserted, or a custom one turned into one
    ensures role.isSystem ==> Execute(db, a, InsertRole(id, role), Restrictive).1 == Raised
    ensures role.isSystem && id in db.roles && MayWriteRole(db, a, db.roles[id], Restrictive) ==>
              Execute(db, a, UpdateRole(id, id, role), Restrictive).1 == Raised
    // a role put into another tenant's school
    ensures role.school.Some? && !InTenant(db, a, role) ==>
              Execute(db, a, InsertRole(id, role), Restrictive).1 == Raised
    // a protected role edited or deleted, and its permission rows
    ensures Protected(db, a, id) ==> Execute(db, a, UpdateRole(id, id, role), Restrictive) == (db, NoRows)
    ensures Protected(db, a, id) ==> Execute(db, a, DeleteRole(id), Restrictive) == (db, NoRows)
    ensures Protected(db, a, id) ==> Execute(db, a, InsertPermission(id, permission), Restrictive) == (db, Raised)
    ensures Protected(db, a, id) ==> Execute(db, a, DeletePermission(id, permission), Restrictive) == (db, NoRows)
  {
  }

  // ------------------------------------------------------------ what a tenant may write

  /** The role is no system role, and has no school or one of the tenant's. */
  predicate Writable(db: Db, a: Tenant, role: Role) {
    !role.isSystem && (role.school == None || IsOwnSchool(db, a, role.school.value))
  }

  predicate IsOwnSchool(db: Db, a: Tenant, school: Id) {
    exists id | id in db.schools :: id == school && db.schools[id] == a
  }

  /** Exactly what succeeds: a new or existing writable role, and the permission rows of one. */
  lemma WritesSucceedIff(db: Db, a: Tenant, id: Id, newId: Id, role: Role, permission: Id)
    requires db.Valid()
    ensures Execute(db, a, InsertRole(id, role), Restrictive).1 == Done <==> id !in db.roles && Writable(db, a, role)
    ensures Execute(db, a, UpdateRole(id, newId, role), Restrictive).1 == Done
       <==> id in db.roles && Writable(db, a, db.roles[id]) && Writable(db, a, role)
            && (newId == id || newId !in db.roles)
    ensures Execute(db, a, DeleteRole(id), Restrictive).1 == Done <==> id in db.roles && Writable(db, a, db.roles[id])
    ensures Execute(db, a, InsertPermission(id, permission), Restrictive).1 == Done
       <==> id in db.roles && Writable(db, a, db.roles[id]) && permission !in PermissionsOf(db, id)
    ensures Execute(db, a, DeletePermission(id, permission), Restrictive).1 == Done
       <==> id in db.roles && Writable(db, a, db.roles[id]) && permission in PermissionsOf(db, id)
  {
    assert (id, permission) in db.permissions <==> permission in PermissionsOf(db, id);
  }

  lemma Made(db: Db, a: Tenant, id: Id, role: Role, permission: Id)
    requires db.Valid() && id !in db.roles && Writable(db, a, role)
    ensures var made := db.(roles := db.roles[id := role], permissions := db.permissions + {(id, permission)});
            && made.Valid() && Writable(made, a, role) && PermissionsOf(made, id) == {permission}
            && Run(db, a, [InsertRole(id, role), InsertPermission(id, permission)], Restrictive) == made
  {
    var one := Execute(db, a, InsertRole(id, role), Restrictive).0;
    WritesSucceedIff(db, a, id, id, role, permission);
    assert forall p | p in db.permissions :: p.0 != id;
    assert permission !in PermissionsOf(one, id);
    WritesSucceedIff(one, a, id, id, role, permission);
    TwoSteps(db, a, InsertRole(id, role), InsertPermission(id, permission));
  }

  lemma TakenBack(db: Db, a: Tenant, id: Id, role: Role, rows: set<(Id, Id)>)
    requires db.Valid() && id !in db.roles && Writable(db, a, role) && forall p | p in rows :: p.0 == id
    ensures var made := db.(roles := db.roles[id := role], permissions := db.permissions + rows);
            made.Valid() && Execute(made, a, DeleteRole(id), Restrictive).0 == db
  {
    var made := db.(roles := db.roles[id := role], permissions := db.permissions + rows);
    WritesSucceedIff(made, a, id, id, role, 0);
    assert made.roles - {id} == db.roles;
    assert forall p | p in db.permissions :: p.0 != id;
    assert (set p | p in made.permissions && p.0 !in {id}) == db.permissions;
  }

  lemma Revoked(db: Db, a: Tenant, id: Id, role: Role, permission: Id)
    requires db.Valid() && id !in db.roles && Writable(db, a, role)
    ensures var made := db.(roles := db.roles[id := role], permissions := db.permissions + {(id, permission)});
            && made.Valid() && Execute(made, a, DeletePermission(id, permission), Restrictive).0
            == db.(roles := db.roles[id := role], permissions := db.permissions + {})
  {
    var made := db.(roles := db.roles[id := role], permissions := db.permissions + {(id, permission)});
    assert permission in PermissionsOf(made, id) by { assert (id, permission) in made.permissions; }
    WritesSucceedIff(made, a, id, id, role, permission);
    assert made.permissions - {(id, permission)} == db.permissions + {};
  }

  /** A role made, granted and taken back again leaves the tables as they were; in between both rows are there. */
  lemma MadeAndTakenBack(db: Db, a: Tenant, id: Id, role: Role, permission: Id)
    requires db.Valid() && id !in db.roles && Writable(db, a, role)
    ensures var made := Run(db, a, [InsertRole(id, role), InsertPermission(id, permission)], Restrictive);
            && made == db.(roles := db.roles[id := role], permissions := db.permissions + {(id, permission)})
            && Run(made, a, [DeletePermission(id, permission), DeleteRole(id)], Restrictive) == db
            && Run(made, a, [DeleteRole(id)], Restrictive) == db
  {
    hide *;
    Made(db, a, id, role, permission);
    var made := db.(roles := db.roles[id := role], permissions := db.permissions + {(id, permission)});
    Revoked(db, a, id, role, permission);
    TakenBack(db, a, id, role, {(id, permission)});
    TakenBack(db, a, id, role, {});
    TwoSteps(made, a, DeletePermission(id, permission), DeleteRole(id));
    OneStep(made, a, DeleteRole(id));
  }

  lemma OneStep(db: Db, a: Tenant, s: Statement)
    requires db.Valid()
    ensures Run(db, a, [s], Restrictive) == Execute(db, a, s, Restrictive).0
  {
    hide Execute;
    assert [s][1..] == [];
  }

  lemma TwoSteps(db: Db, a: Tenant, s: Statement, t: Statement)
    requires db.Valid()
    ensures Run(db, a, [s, t], Restrictive) == Execute(Execute(db, a, s, Restrictive).0, a, t, Restrictive).0
  {
    hide Execute;
    assert [s, t][1..] == [t];
    OneStep(Execute(db, a, s, Restrictive).0, a, t);
  }

  /** A renumbered role keeps its permission rows, and nobody else's change. */
  lemma RenumberingKeepsRows(db: Db, a: Tenant, id: Id, newId: Id, role: Role, other: Id)
    requires db.Valid() && id in db.roles && Writable(db, a, db.roles[id]) && Writable(db, a, role)
    requires newId == id || newId !in db.roles
    ensures var after := Execute(db, a, UpdateRole(id, newId, role), Restrictive).0;
            && newId in after.roles && after.roles[newId] == role
            && PermissionsOf(after, newId) == PermissionsOf(db, id)
            && (other in db.roles && other != id ==> Untouched(db, after, other))
            && (id != newId ==> id !in after.roles)
  {
    WritesSucceedIff(db, a, id, newId, role, 0);
    var after := Execute(db, a, UpdateRole(id, newId, role), Restrictive).0;
    assert forall p | p in db.permissions :: p.0 in db.roles;
    forall p
      ensures p in PermissionsOf(after, newId) <==> p in PermissionsOf(db, id)
      ensures other in db.roles && other != id ==> (p in PermissionsOf(after, other) <==> p in PermissionsOf(db, other))
    {
      RenamedRows(db.permissions, id, newId, newId, p);
      RenamedRows(db.permissions, id, newId, other, p);
    }
  }

  lemma RenamedRows(permissions: set<(Id, Id)>, id: Id, newId: Id, role: Id, p: Id)
    ensures (role, p) in Renamed(permissions, id, newId)
       <==> (role == newId && (id, p) in permissions) || (role != id && (role, p) in permissions)
  {
    if role == newId && (id, p) in permissions {
      var q := (id, p);
      assert q in permissions && (if q.0 == id then newId else q.0, q.1) == (role, p);
    }
    if role != id && (role, p) in permissions {
      var q := (role, p);
      assert q in permissions && (if q.0 == id then newId else q.0, q.1) == (role, p);
    }
  }

  /** An own school renumbered takes its roles along, and renumbered back all is as before. */
  lemma SchoolMovedAndBack(db: Db, a: Tenant, id: Id, newId: Id, r: Id)
    requires db.Valid() && id in db.schools && db.schools[id] == a && newId !in db.schools
    ensures var moved := Execute(db, a, UpdateSchool(id, newId), Restrictive);
            && moved.1 == Done && moved.0.schools == (db.schools - {id})[newId := a]
            && (r in moved.0.roles <==> r in db.roles) && moved.0.permissions == db.permissions
            && (r in db.roles && db.roles[r].school == Some(id)
                ==> moved.0.roles[r] == db.roles[r].(school := Some(newId)))
            && (r in db.roles && db.roles[r].school != Some(id) ==> moved.0.roles[r] == db.roles[r])
            && Execute(moved.0, a, UpdateSchool(newId, id), Restrictive) == (db, Done)
  {
    var moved := Execute(db, a, UpdateSchool(id, newId), Restrictive).0;
    var back := Execute(moved, a, UpdateSchool(newId, id), Restrictive).0;
    assert (moved.schools - {newId})[id := a] == db.schools;
    assert back.roles == db.roles;
  }

  /** A school deleted takes exactly its own roles and their rows; a school made new is empty. */
  lemma SchoolWrites(db: Db, a: Tenant, id: Id, r: Id)
    requires db.Valid()
    ensures Execute(db, a, DeleteSchool(id), Restrictive).1 == Done <==> id in db.schools && db.schools[id] == a
    ensures var after := Execute(db, a, DeleteSchool(id), Restrictive);
            after.1 == Done ==>
              && after.0.schools == db.schools - {id}
              && (r in after.0.roles <==> r in db.roles && db.roles[r].school != Some(id))
              && (r in after.0.roles ==> Untouched(db, after.0, r))
    ensures Execute(db, a, InsertSchool(id), Restrictive).1 == Done <==> id !in db.schools
    ensures id !in db.schools ==>
              && Execute(db, a, InsertSchool(id), Restrictive).0 == db.(schools := db.schools[id := a])
              && Execute(Execute(db, a, InsertSchool(id), Restrictive).0, a, DeleteSchool(id), Restrictive).0 == db
  {
    var after := Execute(db, a, DeleteSchool(id), Restrictive).0;
    if r in after.roles {
      assert forall p :: (r, p) in after.permissions <==> (r, p) in db.permissions;
    }
    if id !in db.schools { EmptySchool(db, a, id); }
  }

  lemma EmptySchool(db: Db, a: Tenant, id: Id)
    requires db.Valid() && id !in db.schools
    ensures var made := db.(schools := db.schools[id := a]);
            made.Valid() && Execute(made, a, DeleteSchool(id), Restrictive).0 == db
  {
    var made := db.(schools := db.schools[id := a]);
    assert RolesOf(made, id) == {};
    assert made.schools - {id} == db.schools;
    assert made.roles - {} == db.roles;
    assert (set p | p in made.permissions && p.0 !in RolesOf(made, id)) == db.permissions;
  }

  // ------------------------------------------------------------ the connection

  /** The tables as one tenant's connection writes them, row by row and with the cascades. */
  class Connection {
    const tenant: Tenant
    var schools: map<Id, Tenant>
    var roles: map<Id, Role>
    var permissions: set<(Id, Id)>

    constructor (tenant: Tenant, db: Db)
      ensures this.tenant == tenant && State() == db
    {
      this.tenant := tenant;
      schools, roles, permissions := db.schools, db.roles, db.permissions;
    }

    function State(): Db
      reads this
    {
      Db(schools, roles, permissions)
    }

    method InsertRole(id: Id, role: Role) returns (outcome: Outcome)
      requires State().Valid()
      modifies this
      ensures (State(), outcome) == Execute(old(State()), tenant, Statement.InsertRole(id, role), Restrictive)
    {
      if id in roles || !SchoolExists(State(), role) || !InTenant(State(), tenant, role) || role.isSystem {
        return Raised;
      }
      roles := roles[id := role];
      outcome := Done;
    }

    method UpdateRole(id: Id, newId: Id, role: Role) returns (outcome: Outcome)
      requires State().Valid()
      modifies this
      ensures (State(), outcome) == Execute(old(State()), tenant, Statement.UpdateRole(id, newId, role), Restrictive)
    {
      if id !in roles || !InTenant(State(), tenant, roles[id]) || roles[id].isSystem {
        return NoRows;
      }
      if !SchoolExists(State(), role) || !InTenant(State(), tenant, role) || role.isSystem
         || (newId != id && newId in roles) {
        return Raised;
      }
      permissions := Renamed(permissions, id, newId);
      roles := (roles - {id})[newId := role];
      outcome := Done;
    }

    method DeleteRole(id: Id) returns (outcome: Outcome)
      requires State().Valid()
      modifies this
      ensures (State(), outcome) == Execute(old(State()), tenant, Statement.DeleteRole(id), Restrictive)
    {
      if id !in roles || !InTenant(State(), tenant, roles[id]) || roles[id].isSystem {
        return NoRows;
      }
      Remove(id);
      outcome := Done;
    }

    method InsertPermission(id: Id, permission: Id) returns (outcome: Outcome)
      requires State().Valid()
      modifies this
      ensures (State(), outcome) == Execute(old(State()), tenant, Statement.InsertPermission(id, permission),
                Restrictive)
    {
      if id !in roles || (id, permission) in permissions || !InTenant(State(), tenant, roles[id])
          || roles[id].isSystem {
        return Raised;
      }
      permissions := permissions + {(id, permission)};
      outcome := Done;
    }

    method DeletePermission(id: Id, permission: Id) returns (outcome: Outcome)
      requires State().Valid()
      modifies this
      ensures (State(), outcome) == Execute(old(State()), tenant, Statement.DeletePermission(id, permission),
                Restrictive)
    {
      if (id, permission) !in permissions || !InTenant(State(), tenant, roles[id]) || roles[id].isSystem {
        return NoRows;
      }
      permissions := permissions - {(id, permission)};
      outcome := Done;
    }

    /** Removes one role and, by `ON DELETE CASCADE`, its permission rows. No policy is asked. */
    method Remove(id: Id)
      modifies this`roles, this`permissions
      ensures State() == WithoutRoles(old(State()), {id})
    {
      permissions := set p | p in permissions && p.0 != id;
      roles := roles - {id};
    }

    /** Removes a school of the tenant; the cascade takes its roles one by one, system roles included. */
    method DeleteSchool(id: Id) returns (outcome: Outcome)
      requires State().Valid()
      modifies this
      ensures (State(), outcome) == Execute(old(State()), tenant, Statement.DeleteSchool(id), Restrictive)
    {
      if id !in schools || schools[id] != tenant {
        return NoRows;
      }
      ghost var before := State();
      ghost var removed: set<Id> := {};
      var left := RolesOf(State(), id);
      while left != {}
        invariant removed + left == RolesOf(before, id) && removed !! left
        invariant State() == WithoutRoles(before, removed)
        decreases left
      {
        var r :| r in left;
        Remove(r);
        removed, left := removed + {r}, left - {r};
      }
      schools := schools - {id};
      outcome := Done;
    }
  }
}
