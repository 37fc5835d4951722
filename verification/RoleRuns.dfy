/**
 Whole runs of the role service and the permissions guard, one call after another: what each call
 does to the database and the permission cache, and why the guard then never answers from a stale
 list (src/role/role.service.ts, src/common/guards/permissions.guard.ts).
 */
module RoleRuns {
  import opened Wrappers
  import opened Roles

  datatype Access = Access(db: Db, store: Store)

  datatype Op =
    | Create(id: nat, name: string, permissions: seq<nat>)
    | Update(id: nat, permissions: seq<nat>)
    | Delete(id: nat)
    | Assign(user: string, role: nat)
    | Remove(user: string, role: nat)
    | Guard(user: string, now: int)

  /** A call together with whether its Redis commands get through. */
  datatype Call = Call(op: Op, redisUp: bool)

  function Cleared(store: Store, after: Store, redisUp: bool): Store {
    if redisUp then after else store
  }

  function Mutated(a: Access, r: Result<Db, RoleError>, cleared: Store, redisUp: bool): Access {
    match r
    case Success(db) => Access(db, Cleared(a.store, cleared, redisUp))
    case Failure(_) => a
  }

  function ForgetUser(store: Store, user: string): Store {
    store - {ROLES_PREFIX + user} - {PermKey(user)}
  }

  /** The list the guard decides by: the live cached one, else a fresh one. */
  function Seen(a: Access, user: string, now: int, redisUp: bool): set<string> {
    (if redisUp then Lookup(a.store, PermKey(user), now) else None).GetOr(Derived(a.db, user))
  }

  predicate Allowed(a: Access, required: seq<string>, user: string, now: int, redisUp: bool) {
    forall p :: p in required ==> p in Seen(a, user, now, redisUp)
  }

  /** What `hasPermissions(user, required, 'all')` answers for a known user. */
  predicate HasAll(db: Db, required: seq<string>, user: string) {
    forall p :: p in required ==> p in Derived(db, user)
  }

  function Step(a: Access, c: Call): Access {
    match c.op
    case Create(id, name, permissions) =>
      if id in a.db.roles then a
      else Mutated(a, CreateRole(a.db, id, name, permissions), WithoutPrefix(a.store, PERMS_PREFIX), c.redisUp)
    case Update(id, permissions) =>
      Mutated(a, UpdateRole(a.db, id, permissions), WithoutPrefix(a.store, PERMS_PREFIX), c.redisUp)
    case Delete(id) =>
      Mutated(a, DeleteRole(a.db, id), WithoutPrefix(WithoutPrefix(a.store, ROLES_PREFIX), PERMS_PREFIX), c.redisUp)
    case Assign(user, role) =>
      Mutated(a, AssignRole(a.db, user, role), ForgetUser(a.store, user), c.redisUp)
    case Remove(user, role) =>
      Mutated(a, RemoveRole(a.db, user, role), ForgetUser(a.store, user), c.redisUp)
    case Guard(user, now) =>
      if c.redisUp && Lookup(a.store, PermKey(user), now).None?
      then a.(store := Put(a.store, PermKey(user), Derived(a.db, user), PERMS_TTL, now))
      else a
  }

  function Run(a: Access, calls: seq<Call>): Access
    decreases |calls|
  {
    if calls == [] then a else Run(Step(a, calls[0]), calls[1..])
  }

  // ---------------------------------------------------------------- What a mutation means

  /** `user` has `p` through a role `r` with `through(r)`. */
  ghost predicate Via(db: Db, user: string, p: nat, through: nat -> bool) {
    exists r :: r in db.roles && through(r) && Holds(db, user, r) && p in db.roles[r].permissions
  }

  lemma GrantedVia(db: Db, after: Db, user: string, p: nat, kept: nat -> bool)
    requires forall r :: Holds(after, user, r) <==> Holds(db, user, r) && kept(r)
    requires forall r :: Holds(after, user, r) ==> (r in after.roles <==> r in db.roles)
    requires forall r :: r in after.roles && r in db.roles ==> after.roles[r] == db.roles[r]
    ensures Granted(after, user, p) <==> Via(db, user, p, kept)
  {
    GrantedBy(after, user, p);
    if Granted(after, user, p) {
      var r :| r in after.roles && p in after.roles[r].permissions && Assignment(user, r) in after.assignments;
      assert Holds(after, user, r) && kept(r);
    }
    if Via(db, user, p, kept) {
      var r :| r in db.roles && kept(r) && Holds(db, user, r) && p in db.roles[r].permissions;
      assert Holds(after, user, r);
    }
  }

  lemma CreateGrants(db: Db, after: Db, id: nat, name: string, permissions: seq<nat>, user: string, p: nat)
    requires Consistent(db) && id !in db.roles && CreateRole(db, id, name, permissions) == Success(after)
    ensures Granted(after, user, p) <==> Granted(db, user, p)
  {
    GrantedBy(db, user, p);
    GrantedBy(after, user, p);
    assert !Holds(db, user, id);
  }

  lemma UpdateGrants(db: Db, after: Db, id: nat, permissions: seq<nat>, user: string, p: nat)
    requires UpdateRole(db, id, permissions) == Success(after)
    ensures Granted(after, user, p)
            <==> Via(db, user, p, r => r != id) || (Holds(db, user, id) && p in permissions)
  {
    GrantedBy(after, user, p);
    assert after.roles[id].permissions == permissions;
    forall r
      ensures Holds(after, user, r) <==> Assignment(user, r) in after.assignments
    {
    }
  }

  lemma AssignGrants(db: Db, after: Db, u: string, role: nat, user: string, p: nat)
    requires AssignRole(db, u, role) == Success(after)
    ensures Granted(after, user, p) <==> Granted(db, user, p) || (user == u && p in db.roles[role].permissions)
  {
    GrantedBy(db, user, p);
    GrantedBy(after, user, p);
  }

  /**
   Who may do what after each successful mutation, in terms of the state before it: assigning adds
   one role's permissions, removing takes away that role as a reason, deleting does so for every
   user, updating replaces what the role gives, and creating gives nobody anything.
   */
  lemma GrantedAfter(a: Access, c: Call, user: string, p: nat)
    requires Consistent(a.db) && Step(a, c).db != a.db
    ensures Granted(Step(a, c).db, user, p) <==>
            match c.op
            case Create(_, _, _) => Granted(a.db, user, p)
            case Update(id, permissions) =>
              Via(a.db, user, p, r => r != id) || (Holds(a.db, user, id) && p in permissions)
            case Delete(id) => Via(a.db, user, p, r => r != id)
            case Assign(u, role) => Granted(a.db, user, p) || (user == u && p in a.db.roles[role].permissions)
            case Remove(u, role) => Via(a.db, user, p, r => user != u || r != role)
            case Guard(_, _) => false
  {
    var b := Step(a, c).db;
    match c.op
    case Create(id, name, permissions) => CreateGrants(a.db, b, id, name, permissions, user, p);
    case Update(id, permissions) => UpdateGrants(a.db, b, id, permissions, user, p);
    case Delete(id) =>
      HeldByAll(a, c, user);
      GrantedVia(a.db, b, user, p, r => r != id);
    case Assign(u, role) => AssignGrants(a.db, b, u, role, user, p);
    case Remove(u, role) =>
      HeldByAll(a, c, user);
      GrantedVia(a.db, b, user, p, r => user != u || r != role);
    case Guard(_, _) =>
  }

  lemma HeldByAll(a: Access, c: Call, user: string)
    requires Step(a, c).db != a.db
    ensures forall r :: Holds(Step(a, c).db, user, r) <==> HeldAfter(a, c, user, r)
  {
    forall r
      ensures Holds(Step(a, c).db, user, r) <==> HeldAfter(a, c, user, r)
    {
      HoldsAfter(a, c, user, r);
    }
  }

  ghost predicate HeldAfter(a: Access, c: Call, user: string, r: nat) {
    match c.op
    case Delete(id) => Holds(a.db, user, r) && r != id
    case Assign(u, role) => Holds(a.db, user, r) || (user == u && r == role)
    case Remove(u, role) => Holds(a.db, user, r) && (user != u || r != role)
    case _ => Holds(a.db, user, r)
  }

  lemma HoldsAfter(a: Access, c: Call, user: string, r: nat)
    requires Step(a, c).db != a.db
    ensures Holds(Step(a, c).db, user, r) <==> HeldAfter(a, c, user, r)
  {
    match c.op
    case Delete(id) => DroppedElements(a.db.assignments, (x: Assignment) => x.role != id, Assignment(user, r));
    case Remove(u, role) =>
      DroppedElements(a.db.assignments, (x: Assignment) => x != Assignment(u, role), Assignment(user, r));
    case _ =>
  }

  // ---------------------------------------------------------------- What a step keeps

  ghost predicate Distinct(permissions: seq<nat>) {
    forall i, j :: 0 <= i < j < |permissions| ==> permissions[i] != permissions[j]
  }

  lemma {:induction false} FoundAtMost(permissions: seq<nat>, names: map<nat, string>)
    ensures |Found(permissions, names)| <= |permissions|
    ensures |Found(permissions, names)| == |permissions|
            <==> Distinct(permissions) && forall p :: p in permissions ==> p in names
  {
    if permissions != [] {
      var head, rest := permissions[0], permissions[1..];
      FoundAtMost(rest, names);
      DistinctCons(permissions);
      assert forall p :: p in permissions <==> p == head || p in rest;
      if head in names && head !in rest {
        assert Found(permissions, names) == Found(rest, names) + {head};
      } else {
        assert Found(permissions, names) == Found(rest, names);
        assert head in permissions;
      }
    }
  }

  lemma DistinctCons(permissions: seq<nat>)
    requires permissions != []
    ensures Distinct(permissions) <==> permissions[0] !in permissions[1..] && Distinct(permissions[1..])
  {
    var rest := permissions[1..];
    if Distinct(permissions) {
      forall i, j | 0 <= i < j < |rest|
        ensures rest[i] != rest[j]
      {
        assert rest[i] == permissions[i + 1] && rest[j] == permissions[j + 1];
      }
    }
    if permissions[0] !in rest && Distinct(rest) {
      forall i, j | 0 <= i < j < |permissions|
        ensures permissions[i] != permissions[j]
      {
        assert permissions[j] == rest[j - 1];
        if i > 0 { assert permissions[i] == rest[i - 1]; }
      }
    }
  }

  /** The service's length comparison accepts exactly the lists of existing, distinct permissions. */
  lemma ListAcceptedIff(db: Db, permissions: seq<nat>)
    ensures ValidList(db, permissions)
            <==> Distinct(permissions) && forall p :: p in permissions ==> p in db.permissionNames
  {
    FoundAtMost(permissions, db.permissionNames);
  }

  lemma DroppingKeepsConsistent(db: Db, roles: map<nat, Role>, keep: Assignment -> bool)
    requires Consistent(db) && roles.Keys <= db.roles.Keys && forall r :: r in roles ==> roles[r] == db.roles[r]
    requires forall x :: x in db.assignments && keep(x) ==> x.role in roles
    ensures Consistent(db.(roles := roles, assignments := Dropped(db.assignments, keep)))
  {
    var rows := Dropped(db.assignments, keep);
    forall i | 0 <= i < |rows|
      ensures rows[i].role in roles && rows[i].user in db.users
    {
      DroppedElements(db.assignments, keep, rows[i]);
      assert rows[i] in rows;
    }
  }

  lemma StepKeepsConsistent(a: Access, c: Call)
    requires Consistent(a.db)
    ensures Consistent(Step(a, c).db)
  {
    match c.op
    case Create(id, name, permissions) => ListAcceptedIff(a.db, permissions);
    case Update(id, permissions) => ListAcceptedIff(a.db, permissions);
    case Delete(id) => DroppingKeepsConsistent(a.db, a.db.roles - {id}, (x: Assignment) => x.role != id);
    case Assign(user, role) =>
    case Remove(user, role) =>
      DroppingKeepsConsistent(a.db, a.db.roles, (x: Assignment) => x != Assignment(user, role));
    case Guard(user, now) =>
  }

  lemma StepKeepsExact(a: Access, c: Call)
    requires c.redisUp && Exact(a.db, a.store)
    ensures Exact(Step(a, c).db, Step(a, c).store)
  {
    PatternClears(Step(a, c).db, a.store);
    match c.op
    case Create(id, name, permissions) =>
    case Update(id, permissions) =>
    case Delete(id) =>
    case Assign(user, role) =>
      var r := AssignRole(a.db, user, role);
      if r.Success? { SingleKeyClears(a.db, r.value, a.store, user, role); }
    case Remove(user, role) =>
      var r := RemoveRole(a.db, user, role);
      if r.Success? { SingleKeyClears(a.db, r.value, a.store, user, role); }
    case Guard(user, now) =>
      PutKeepsExact(a.db, a.store, user, PERMS_TTL, now);
  }

  /**
   However roles are created, changed, deleted, assigned and removed between guard checks, while
   Redis answers every cached list is the current one.
   */
  lemma {:induction false} RunKeepsExact(a: Access, calls: seq<Call>)
    requires Consistent(a.db) && Exact(a.db, a.store)
    requires forall c :: c in calls ==> c.redisUp
    decreases |calls|
    ensures Consistent(Run(a, calls).db) && Exact(Run(a, calls).db, Run(a, calls).store)
  {
    if calls != [] {
      StepKeepsConsistent(a, calls[0]);
      StepKeepsExact(a, calls[0]);
      RunKeepsExact(Step(a, calls[0]), calls[1..]);
    }
  }

  /** So after any such run the guard and `hasPermissions(..., 'all')` give the same answer. */
  lemma GuardAgreesWithService(db: Db, calls: seq<Call>, required: seq<string>, user: string, now: int, redisUp: bool)
    requires Consistent(db)
    requires forall c :: c in calls ==> c.redisUp
    ensures var a := Run(Access(db, map[]), calls);
            Allowed(a, required, user, now, redisUp) <==> HasAll(a.db, required, user)
  {
    RunKeepsExact(Access(db, map[]), calls);
  }

  /**
   One swallowed Redis error is enough to break this: whoever loses the last role that carried a
   permission, with the list cached and the invalidation failing, is still let in until it expires.
   */
  lemma FailedInvalidationIsSeen(db: Db, user: string, role: nat, p: string, now: int, later: int)
    requires RemoveRole(db, user, role).Success?
    requires p in Derived(db, user) && p !in Derived(RemoveRole(db, user, role).value, user)
    requires now <= later
    ensures var a := Run(Access(db, map[]), [Call(Guard(user, now), true), Call(Remove(user, role), false)]);
            (Allowed(a, [p], user, later, true) <==> later <= now + 60000) && !HasAll(a.db, [p], user)
  {
    var a0 := Access(db, map[]);
    var c0, c1 := Call(Guard(user, now), true), Call(Remove(user, role), false);
    var a1 := Step(a0, c0);
    var a2 := Step(a1, c1);
    assert [c0, c1][1..] == [c1] && [c1][1..] == [];
    assert Run(a0, [c0, c1]) == Run(a1, [c1]) == Run(a2, []) == a2;
    assert a2 == Access(RemoveRole(db, user, role).value, map[PermKey(user) := Entry(Derived(db, user), now + 60000)]);
    assert p in [p];
  }
}
