/**
 The cache service, the permissions guard and the role service over one database and one Redis
 store (src/common/services/cache.service.ts, src/common/guards/permissions.guard.ts,
 src/role/role.service.ts). A call completes before the next one starts; `redisUp` is false when
 the Redis calls inside it fail, which the cache service swallows.
 */
module AccessControl {
  import opened Wrappers
  import opened Roles
  import opened RoleRuns

  class AccessControl {
    var db: Db
    var store: Store

    constructor (db: Db)
      ensures this.db == db && store == map[] && Exact(this.db, store)
    {
      this.db, store := db, map[];
    }

    // -------------------------------------------------------------- CacheService

    method Get(key: string, now: int, redisUp: bool) returns (cached: Option<set<string>>)
      ensures cached == if redisUp then Lookup(store, key, now) else None
    {
      if !redisUp {
        return None;
      }
      if key in store && now <= store[key].expiresAt {
        return Some(store[key].permissions);
      }
      return None;
    }

    method Set(key: string, value: set<string>, ttlSeconds: int, now: int, redisUp: bool)
      modifies this`store
      ensures store == if redisUp then Put(old(store), key, value, ttlSeconds, now) else old(store)
    {
      if redisUp {
        store := store[key := Entry(value, now + ttlSeconds * 1000)];
      }
    }

    method Del(key: string, redisUp: bool)
      modifies this`store
      ensures store == if redisUp then old(store) - {key} else old(store)
    {
      if redisUp {
        store := store - {key};
      }
    }

    method InvalidatePattern(prefix: string, redisUp: bool)
      modifies this`store
      ensures store == if redisUp then WithoutPrefix(old(store), prefix) else old(store)
    {
      if redisUp {
        var keys := set key | key in store && prefix <= key;
        if |keys| > 0 {
          store := store - keys;
        }
        assert store == WithoutPrefix(old(store), prefix) by {
          if |keys| == 0 {
            assert forall key :: key in store ==> key !in keys;
          }
        }
      }
    }

    // -------------------------------------------------------------- Loading

    /** The guard's loader: nested loops over the user's roles and their permissions. */
    method LoadPermissions(user: string) returns (names: set<string>)
      requires Consistent(db)
      ensures names == Derived(db, user)
    {
      names := {};
      if user !in db.users {
        assert forall p :: !Granted(db, user, p);
        return;
      }
      for i := 0 to |db.assignments|
        invariant forall n :: n in names <==> NamedBefore(db, user, i, n)
      {
        if db.assignments[i].user == user {
          var permissions := db.roles[db.assignments[i].role].permissions;
          for j := 0 to |permissions|
            invariant forall n :: n in names <==>
              NamedBefore(db, user, i, n) || exists k :: 0 <= k < j && db.permissionNames[permissions[k]] == n
          {
            names := names + {db.permissionNames[permissions[j]]};
          }
          forall n
            ensures n in names <==> NamedBefore(db, user, i + 1, n)
          {
            NamedStep(db, user, i, n);
          }
        } else {
          forall n
            ensures NamedBefore(db, user, i + 1, n) <==> NamedBefore(db, user, i, n)
          {
            NamedStep(db, user, i, n);
          }
        }
      }
      forall n
        ensures n in names <==> n in Derived(db, user)
      {
        NamedByAll(db, user, n);
      }
    }

    // -------------------------------------------------------------- PermissionsGuard

    method CanActivate(required: seq<string>, user: Option<string>, now: int, redisUp: bool) returns (allowed: bool)
      requires Consistent(db)
      modifies this`store
      ensures required == [] ==> allowed
      ensures required != [] && user.None? ==> !allowed
      ensures required != [] && user.Some? ==>
                && allowed == old(Allowed(Access(db, store), required, user.value, now, redisUp))
                && Access(db, store) == Step(old(Access(db, store)), Call(Guard(user.value, now), redisUp))
      ensures (required == [] || user.None?) ==> store == old(store)
      ensures db == old(db)
      ensures old(Exact(db, store)) ==> Exact(db, store)
      ensures old(Exact(db, store)) && required != [] && user.Some? ==> allowed == HasAll(db, required, user.value)
    {
      if |required| == 0 {
        return true;
      }
      if user.None? {
        return false;
      }
      if Exact(db, store) { PutKeepsExact(db, store, user.value, PERMS_TTL, now); }
      var perms;
      var cached := Get(PermKey(user.value), now, redisUp);
      if cached.Some? {
        perms := cached.value;
      } else {
        perms := LoadPermissions(user.value);
        Set(PermKey(user.value), perms, PERMS_TTL, now, redisUp);
      }
      allowed := forall p :: p in required ==> p in perms;
    }

    // -------------------------------------------------------------- RoleService

    /** `hasPermissions(user, required, 'all')` and `'any'`; an unknown user is an error. */
    method HasPermissions(user: string, required: seq<string>, all: bool) returns (r: Result<bool, RoleError>)
      requires Consistent(db)
      ensures user !in db.users <==> r == Failure(UserNotFound)
      ensures user in db.users ==> r == Success(
                if all then HasAll(db, required, user)
                else exists p :: p in required && p in Derived(db, user))
    {
      if user !in db.users {
        return Failure(UserNotFound);
      }
      var perms := LoadPermissions(user);
      if all {
        return Success(forall p :: p in required ==> p in perms);
      }
      return Success(exists p :: p in required && p in perms);
    }

    method CreateRolePermissions(id: nat, name: string, permissions: seq<nat>, redisUp: bool) returns (r: Result<Db,
                                 RoleError>)
      requires id !in db.roles
      modifies this
      ensures r == CreateRole(old(db), id, name, permissions)
      ensures Access(db, store) == Step(old(Access(db, store)), Call(Create(id, name, permissions), redisUp))
      ensures redisUp && old(Exact(db, store)) ==> Exact(db, store)
    {
      r := CreateRole(db, id, name, permissions);
      if r.Success? {
        db := r.value;
        PatternClears(db, store);
        InvalidatePattern(PERMS_PREFIX, redisUp);
      }
    }

    method UpdateRolePermissions(id: nat, permissions: seq<nat>, redisUp: bool) returns (r: Result<Db, RoleError>)
      modifies this
      ensures r == UpdateRole(old(db), id, permissions)
      ensures Access(db, store) == Step(old(Access(db, store)), Call(Update(id, permissions), redisUp))
      ensures redisUp && old(Exact(db, store)) ==> Exact(db, store)
    {
      r := UpdateRole(db, id, permissions);
      if r.Success? {
        db := r.value;
        PatternClears(db, store);
        InvalidatePattern(PERMS_PREFIX, redisUp);
      }
    }

    method DeleteRoleById(id: nat, redisUp: bool) returns (r: Result<Db, RoleError>)
      modifies this
      ensures r == DeleteRole(old(db), id)
      ensures Access(db, store) == Step(old(Access(db, store)), Call(Delete(id), redisUp))
      ensures redisUp && old(Exact(db, store)) ==> Exact(db, store)
    {
      r := DeleteRole(db, id);
      if r.Success? {
        db := r.value;
        PatternClears(db, store);
        InvalidatePattern(ROLES_PREFIX, redisUp);
        InvalidatePattern(PERMS_PREFIX, redisUp);
      }
    }

    method AssignRoleToUser(user: string, role: nat, redisUp: bool) returns (r: Result<Db, RoleError>)
      modifies this
      ensures r == AssignRole(old(db), user, role)
      ensures Access(db, store) == Step(old(Access(db, store)), Call(Assign(user, role), redisUp))
      ensures redisUp && old(Exact(db, store)) ==> Exact(db, store)
    {
      r := AssignRole(db, user, role);
      if r.Success? {
        if Exact(db, store) { SingleKeyClears(db, r.value, store, user, role); }
        db := r.value;
        Del(ROLES_PREFIX + user, redisUp);
        Del(PermKey(user), redisUp);
      }
    }

    method RemoveRoleFromUser(user: string, role: nat, redisUp: bool) returns (r: Result<Db, RoleError>)
      modifies this
      ensures r == RemoveRole(old(db), user, role)
      ensures Access(db, store) == Step(old(Access(db, store)), Call(Remove(user, role), redisUp))
      ensures redisUp && old(Exact(db, store)) ==> Exact(db, store)
    {
      r := RemoveRole(db, user, role);
      if r.Success? {
        if Exact(db, store) { SingleKeyClears(db, r.value, store, user, role); }
        db := r.value;
        Del(ROLES_PREFIX + user, redisUp);
        Del(PermKey(user), redisUp);
      }
    }
  }

  // ---------------------------------------------------------------- The loader's loops

  /** `n` names a permission of one of the user's roles among the first `i` assignments. */
  ghost predicate NamedBefore(db: Db, user: string, i: int, n: string)
    requires Consistent(db) && 0 <= i <= |db.assignments|
  {
    exists a :: 0 <= a < i && NamedBy(db, user, a, n)
  }

  ghost predicate NamedBy(db: Db, user: string, a: int, n: string)
    requires Consistent(db) && 0 <= a < |db.assignments|
  {
    && db.assignments[a].user == user
    && exists k :: 0 <= k < |db.roles[db.assignments[a].role].permissions|
                   && db.permissionNames[db.roles[db.assignments[a].role].permissions[k]] == n
  }

  lemma NamedStep(db: Db, user: string, i: int, n: string)
    requires Consistent(db) && 0 <= i < |db.assignments|
    ensures NamedBefore(db, user, i + 1, n) <==> NamedBefore(db, user, i, n) || NamedBy(db, user, i, n)
  {
  }

  lemma NamedByAll(db: Db, user: string, n: string)
    requires Consistent(db)
    ensures NamedBefore(db, user, |db.assignments|, n) <==> n in Derived(db, user)
  {
    if NamedBefore(db, user, |db.assignments|, n) {
      var a :| 0 <= a < |db.assignments| && NamedBy(db, user, a, n);
      var permissions := db.roles[db.assignments[a].role].permissions;
      var k :| 0 <= k < |permissions| && db.permissionNames[permissions[k]] == n;
      assert Granted(db, user, permissions[k]);
      DerivedOf(db, user, permissions[k]);
    }
    if n in Derived(db, user) {
      var p :| p in db.permissionNames && Granted(db, user, p) && db.permissionNames[p] == n;
      var a :| 0 <= a < |db.assignments| && db.assignments[a].user == user && db.assignments[a].role in db.roles
               && p in db.roles[db.assignments[a].role].permissions;
      assert NamedBy(db, user, a, n);
    }
  }
}
