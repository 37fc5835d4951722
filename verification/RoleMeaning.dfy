/**
 What each role mutation and each guard check does, said of the rows and cache keys themselves
 (src/role/role.service.ts, src/common/guards/permissions.guard.ts).
 */
module RoleMeaning {
  import opened Wrappers
  import opened Roles
  import opened RoleRuns

  // ---------------------------------------------------------------- What a user may do

  predicate Assigned(db: Db, user: string, role: nat) {
    exists i :: 0 <= i < |db.assignments| && db.assignments[i] == Assignment(user, role)
  }

  /** One of the user's roles carries a permission of that name. */
  ghost predicate May(db: Db, user: string, name: string) {
    exists role, p :: role in db.roles && Assigned(db, user, role) && CarriesNamed(db, role, p, name)
  }

  predicate CarriesNamed(db: Db, role: nat, p: nat, name: string)
    requires role in db.roles
  {
    p in db.roles[role].permissions && p in db.permissionNames && db.permissionNames[p] == name
  }

  lemma DerivedExactly(db: Db, user: string, name: string)
    ensures name in Derived(db, user) <==> May(db, user, name)
  {
    if name in Derived(db, user) {
      var p :| p in db.permissionNames && Granted(db, user, p) && db.permissionNames[p] == name;
      var i :| 0 <= i < |db.assignments| && db.assignments[i].user == user && db.assignments[i].role in db.roles
               && p in db.roles[db.assignments[i].role].permissions;
      var role := db.assignments[i].role;
      assert Assigned(db, user, role) && CarriesNamed(db, role, p, name);
    }
    if May(db, user, name) {
      var role, p :| role in db.roles && Assigned(db, user, role) && CarriesNamed(db, role, p, name);
      var i :| 0 <= i < |db.assignments| && db.assignments[i] == Assignment(user, role);
      assert Granted(db, user, p);
      DerivedOf(db, user, p);
    }
  }

  /**
   The guard demands every required permission: of the live cached list if Redis answers and there is
   one, else of the user's roles. `hasPermissions` in mode 'all' demands them of the user's roles.
   */
  lemma GuardDemandsAll(a: Access, required: seq<string>, user: string, now: int, redisUp: bool)
    ensures var key := "user:perms:" + user;
            var cached := redisUp && key in a.store && now <= a.store[key].expiresAt;
            && (cached ==> (Allowed(a, required, user, now, redisUp) <==>
                              forall i :: 0 <= i < |required| ==> required[i] in a.store[key].permissions))
            && (!cached ==> (Allowed(a, required, user, now, redisUp) <==>
                               forall i :: 0 <= i < |required| ==> May(a.db, user, required[i])))
            && (HasAll(a.db, required, user) <==> forall i :: 0 <= i < |required| ==> May(a.db, user, required[i]))
  {
    forall name
      ensures name in Derived(a.db, user) <==> May(a.db, user, name)
    {
      DerivedExactly(a.db, user, name);
    }
    assert PermKey(user) == "user:perms:" + user;
    ByIndex(required, Seen(a, user, now, redisUp));
    ByIndex(required, Derived(a.db, user));
  }

  lemma ByIndex(required: seq<string>, names: set<string>)
    ensures (forall p :: p in required ==> p in names) <==> forall i :: 0 <= i < |required| ==> required[i] in names
  {
    if forall p :: p in required ==> p in names {
      forall i | 0 <= i < |required|
        ensures required[i] in names
      {
        assert required[i] in required;
      }
    }
  }

  // ---------------------------------------------------------------- What a mutation writes

  /** All the permissions exist and none is listed twice. */
  ghost predicate ProperList(db: Db, permissions: seq<nat>) {
    && (forall i :: 0 <= i < |permissions| ==> permissions[i] in db.permissionNames)
    && (forall i, j :: 0 <= i < j < |permissions| ==> permissions[i] != permissions[j])
  }

  lemma ProperIsValid(db: Db, permissions: seq<nat>)
    ensures ValidList(db, permissions) <==> ProperList(db, permissions)
  {
    ListAcceptedIff(db, permissions);
  }

  /** A new role: refused if its name is taken or its list improper, else stored as given beside all else. */
  lemma CreateWrites(db: Db, id: nat, name: string, permissions: seq<nat>)
    requires id !in db.roles
    ensures CreateRole(db, id, name, permissions) ==
            if exists r :: r in db.roles && db.roles[r].name == name then Failure(RoleExists)
            else if !ProperList(db, permissions) then Failure(InvalidPermissions)
            else Success(Db(db.users, db.permissionNames, db.roles[id := Role(name, permissions)], db.assignments))
  {
    ProperIsValid(db, permissions);
  }

  /** An update: refused for an unknown role or an improper list, else the role keeps its name and gets the list. */
  lemma UpdateWrites(db: Db, id: nat, permissions: seq<nat>)
    ensures UpdateRole(db, id, permissions) ==
            if id !in db.roles then Failure(RoleNotFound)
            else if !ProperList(db, permissions) then Failure(InvalidPermissions)
            else Success(Db(db.users, db.permissionNames, db.roles[id := Role(db.roles[id].name, permissions)],
                            db.assignments))
  {
    ProperIsValid(db, permissions);
  }

  /** A deletion: refused for an unknown role, else the role goes and with it exactly its assignments. */
  lemma DeleteWrites(db: Db, id: nat, a: Assignment)
    ensures DeleteRole(db, id).Failure? <==> id !in db.roles
    ensures id !in db.roles ==> DeleteRole(db, id) == Failure(RoleNotFound)
    ensures id in db.roles ==>
              var after := DeleteRole(db, id).value;
              && after.users == db.users && after.permissionNames == db.permissionNames
              && after.roles == db.roles - {id}
              && (a in after.assignments <==> a in db.assignments && a.role != id)
  {
    DroppedElements(db.assignments, (x: Assignment) => x.role != id, a);
  }

  /** An assignment: refused for an unknown user, then an unknown role; else the user holds it, and holds it once. */
  lemma AssignWrites(db: Db, user: string, role: nat)
    ensures AssignRole(db, user, role) ==
            if user !in db.users then Failure(UserNotFound)
            else if role !in db.roles then Failure(RoleNotFound)
            else if Assigned(db, user, role) then Success(db)
            else Success(Db(db.users, db.permissionNames, db.roles, db.assignments + [Assignment(user, role)]))
  {
  }

  /** A removal: refused if the user does not hold the role, else exactly that assignment goes. */
  lemma RemoveWrites(db: Db, user: string, role: nat, a: Assignment)
    ensures RemoveRole(db, user, role).Failure? <==> !Assigned(db, user, role)
    ensures !Assigned(db, user, role) ==> RemoveRole(db, user, role) == Failure(NotAssigned)
    ensures Assigned(db, user, role) ==>
              var after := RemoveRole(db, user, role).value;
              && after.users == db.users && after.permissionNames == db.permissionNames && after.roles == db.roles
              && (a in after.assignments <==> a in db.assignments && a != Assignment(user, role))
  {
    DroppedElements(db.assignments, (x: Assignment) => x != Assignment(user, role), a);
  }

  // ---------------------------------------------------------------- What happens to the cache

  predicate Succeeds(a: Access, op: Op) {
    match op
    case Create(id, name, permissions) => id !in a.db.roles && CreateRole(a.db, id, name, permissions).Success?
    case Update(id, permissions) => UpdateRole(a.db, id, permissions).Success?
    case Delete(id) => DeleteRole(a.db, id).Success?
    case Assign(user, role) => AssignRole(a.db, user, role).Success?
    case Remove(user, role) => RemoveRole(a.db, user, role).Success?
    case Guard(_, _) => false
  }

  /** The cache keys a successful mutation drops. */
  predicate Drops(op: Op, key: string) {
    match op
    case Create(_, _, _) => "user:perms:" <= key
    case Update(_, _) => "user:perms:" <= key
    case Delete(_) => "user:perms:" <= key || "user:roles:" <= key
    case Assign(user, _) => key == "user:perms:" + user || key == "user:roles:" + user
    case Remove(user, _) => key == "user:perms:" + user || key == "user:roles:" + user
    case Guard(_, _) => false
  }

  /**
   A successful mutation drops exactly its cache keys, if Redis answers; a refused one, or one whose
   Redis calls fail, leaves the cache alone.
   */
  lemma CacheAfterMutation(a: Access, c: Call, key: string)
    requires !c.op.Guard?
    ensures var after := Step(a, c).store;
            && (key in after <==> key in a.store && !(Succeeds(a, c.op) && c.redisUp && Drops(c.op, key)))
            && (key in after ==> after[key] == a.store[key])
  {
  }

  /** A guard check stores what it read for 60 seconds, unless a live list is there or Redis is down. */
  lemma CacheAfterGuard(a: Access, user: string, now: int, redisUp: bool)
    ensures var key, after := "user:perms:" + user, Step(a, Call(Guard(user, now), redisUp));
            && after.db == a.db
            && after.store ==
               if redisUp && !(key in a.store && now <= a.store[key].expiresAt)
               then a.store[key := Entry(Derived(a.db, user), now + 60 * 1000)] else a.store
  {
    assert PermKey(user) == "user:perms:" + user;
  }
}
