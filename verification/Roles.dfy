/**
 Roles, permissions and what a user may do (src/role/role.service.ts), with the permission cache
 that stands in front of it (src/common/services/cache.service.ts), as values.
 */
module Roles {
  import opened Wrappers

  datatype Role = Role(name: string, permissions: seq<nat>)

  datatype Assignment = Assignment(user: string, role: nat)

  datatype Db = Db(users: set<string>, permissionNames: map<nat, string>, roles: map<nat, Role>,
                   assignments: seq<Assignment>)

  datatype RoleError = RoleExists | RoleNotFound | InvalidPermissions | UserNotFound | NotAssigned

  /** Foreign keys hold: assignments and role permissions point at existing rows. */
  ghost predicate Consistent(db: Db) {
    && (forall i :: 0 <= i < |db.assignments| ==>
         db.assignments[i].role in db.roles && db.assignments[i].user in db.users)
    && (forall r, p :: r in db.roles && p in db.roles[r].permissions ==> p in db.permissionNames)
  }

  predicate Holds(db: Db, user: string, role: nat) {
    Assignment(user, role) in db.assignments
  }

  /** `user` has a role that carries permission `p`. */
  predicate Granted(db: Db, user: string, p: nat) {
    exists i :: 0 <= i < |db.assignments| && db.assignments[i].user == user && db.assignments[i].role in db.roles
                && p in db.roles[db.assignments[i].role].permissions
  }

  /** The names of the permissions a user's roles carry. */
  function Derived(db: Db, user: string): set<string> {
    set p | p in db.permissionNames && Granted(db, user, p) :: db.permissionNames[p]
  }

  lemma DerivedOf(db: Db, user: string, p: nat)
    requires Granted(db, user, p) && p in db.permissionNames
    ensures db.permissionNames[p] in Derived(db, user)
  {
  }

  // ---------------------------------------------------------------- Role mutations

  function Found(permissions: seq<nat>, names: map<nat, string>): set<nat> {
    set p | p in permissions && p in names
  }

  /** `findMany({ id in list })` found as many rows as the list is long. */
  predicate ValidList(db: Db, permissions: seq<nat>) {
    |Found(permissions, db.permissionNames)| == |permissions|
  }

  predicate NameTaken(db: Db, name: string) {
    exists r :: r in db.roles && db.roles[r].name == name
  }

  function CreateRole(db: Db, id: nat, name: string, permissions: seq<nat>): Result<Db, RoleError>
    requires id !in db.roles
  {
    if NameTaken(db, name) then Failure(RoleExists)
    else if !ValidList(db, permissions) then Failure(InvalidPermissions)
    else Success(db.(roles := db.roles[id := Role(name, permissions)]))
  }

  function UpdateRole(db: Db, id: nat, permissions: seq<nat>): Result<Db, RoleError> {
    if id !in db.roles then Failure(RoleNotFound)
    else if !ValidList(db, permissions) then Failure(InvalidPermissions)
    else Success(db.(roles := db.roles[id := db.roles[id].(permissions := permissions)]))
  }

  function Dropped(rows: seq<Assignment>, keep: Assignment -> bool): seq<Assignment> {
    if rows == [] then [] else (if keep(rows[0]) then [rows[0]] else []) + Dropped(rows[1..], keep)
  }

  /** Deleting a role deletes its assignments with it. */
  function DeleteRole(db: Db, id: nat): Result<Db, RoleError> {
    if id !in db.roles then Failure(RoleNotFound)
    else Success(db.(roles := db.roles - {id}, assignments := Dropped(db.assignments, (a: Assignment) => a.role != id)))
  }

  function AssignRole(db: Db, user: string, role: nat): Result<Db, RoleError> {
    if user !in db.users then Failure(UserNotFound)
    else if role !in db.roles then Failure(RoleNotFound)
    else if Holds(db, user, role) then Success(db)
    else Success(db.(assignments := db.assignments + [Assignment(user, role)]))
  }

  function RemoveRole(db: Db, user: string, role: nat): Result<Db, RoleError> {
    if !Holds(db, user, role) then Failure(NotAssigned)
    else Success(db.(assignments := Dropped(db.assignments, (a: Assignment) => a != Assignment(user, role))))
  }

  lemma {:induction false} DroppedElements(rows: seq<Assignment>, keep: Assignment -> bool, a: Assignment)
    ensures a in Dropped(rows, keep) <==> a in rows && keep(a)
  {
    if rows != [] {
      DroppedElements(rows[1..], keep, a);
      assert rows == [rows[0]] + rows[1..];
    }
  }

  lemma GrantedBy(db: Db, user: string, p: nat)
    ensures Granted(db, user, p)
            <==> exists r :: r in db.roles && p in db.roles[r].permissions && Assignment(user, r) in db.assignments
  {
    if Granted(db, user, p) {
      var i :| 0 <= i < |db.assignments| && db.assignments[i].user == user && db.assignments[i].role in db.roles
               && p in db.roles[db.assignments[i].role].permissions;
      assert db.assignments[i] == Assignment(user, db.assignments[i].role);
    }
  }

  /** Assigning or removing a role leaves every other user's permissions alone. */
  lemma OthersUnchanged(db: Db, after: Db, user: string, role: nat, other: string)
    requires AssignRole(db, user, role) == Success(after) || RemoveRole(db, user, role) == Success(after)
    requires other != user
    ensures Derived(after, other) == Derived(db, other)
  {
    forall p
      ensures Granted(after, other, p) <==> Granted(db, other, p)
    {
      GrantedBy(after, other, p);
      GrantedBy(db, other, p);
      forall r
        ensures Assignment(other, r) in after.assignments <==> Assignment(other, r) in db.assignments
      {
        if RemoveRole(db, user, role) == Success(after) {
          DroppedElements(db.assignments, (a: Assignment) => a != Assignment(user, role), Assignment(other, r));
        }
      }
    }
  }

  /** What removal means: the user no longer holds the role, and holds every other role as before. */
  lemma RemovedExactly(db: Db, after: Db, user: string, role: nat, r: nat)
    requires RemoveRole(db, user, role) == Success(after)
    ensures Holds(after, user, r) <==> Holds(db, user, r) && r != role
  {
    DroppedElements(db.assignments, (a: Assignment) => a != Assignment(user, role), Assignment(user, r));
  }

  // ---------------------------------------------------------------- The cache

  /** Times are in milliseconds. */
  datatype Entry = Entry(permissions: set<string>, expiresAt: int)

  type Store = map<string, Entry>

  const PERMS_PREFIX: string := "user:perms:"
  const ROLES_PREFIX: string := "user:roles:"

  const PERMS_TTL: int := 60

  function PermKey(user: string): string {
    PERMS_PREFIX + user
  }

  lemma KeysDiffer(user: string, other: string)
    requires user != other
    ensures PermKey(user) != PermKey(other)
  {
    assert PermKey(user)[|PERMS_PREFIX|..] == user && PermKey(other)[|PERMS_PREFIX|..] == other;
  }

  function Lookup(store: Store, key: string, now: int): Option<set<string>> {
    if key in store && now <= store[key].expiresAt then Some(store[key].permissions) else None
  }

  function Put(store: Store, key: string, permissions: set<string>, ttlSeconds: int, now: int): Store {
    store[key := Entry(permissions, now + ttlSeconds * 1000)]
  }

  /** What `KEYS prefix*` followed by `DEL` leaves. */
  function WithoutPrefix(store: Store, prefix: string): Store {
    map key | key in store && !(prefix <= key) :: store[key]
  }

  /** Every cached permission list is the current one. */
  ghost predicate Exact(db: Db, store: Store) {
    forall user :: PermKey(user) in store ==> store[PermKey(user)].permissions == Derived(db, user)
  }

  lemma PatternClears(db: Db, store: Store)
    ensures Exact(db, WithoutPrefix(store, PERMS_PREFIX))
    ensures Exact(db, WithoutPrefix(WithoutPrefix(store, ROLES_PREFIX), PERMS_PREFIX))
  {
    forall user
      ensures PERMS_PREFIX <= PermKey(user)
    {
    }
  }

  lemma SingleKeyClears(db: Db, after: Db, store: Store, user: string, role: nat)
    requires Exact(db, store)
    requires AssignRole(db, user, role) == Success(after) || RemoveRole(db, user, role) == Success(after)
    ensures Exact(after, store - {ROLES_PREFIX + user} - {PermKey(user)})
  {
    forall other | PermKey(other) in store - {ROLES_PREFIX + user} - {PermKey(user)}
      ensures Derived(after, other) == Derived(db, other)
    {
      if other != user { OthersUnchanged(db, after, user, role, other); }
    }
  }

  lemma PutKeepsExact(db: Db, store: Store, user: string, ttlSeconds: int, now: int)
    requires Exact(db, store)
    ensures Exact(db, Put(store, PermKey(user), Derived(db, user), ttlSeconds, now))
  {
    forall other | other != user
      ensures PermKey(other) != PermKey(user)
    {
      KeysDiffer(other, user);
    }
  }
}
