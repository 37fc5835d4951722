/**
 The permission cache under interleaving: loads, role changes, invalidations, evictions and
 swallowed Redis errors in any order (src/common/services/cache.service.ts,
 src/common/guards/permissions.guard.ts). A load reads the database at one instant and writes the
 cache at a later one; `delay` bounds the milliseconds between the two.
 */
module CacheStaleness {
  import opened Wrappers
  import opened Roles
  import RoleRuns

  /** A `getOrSet` call between its database read and its cache write. */
  datatype Load = Load(user: string, permissions: set<string>, readAt: int)

  datatype State = State(now: int, db: Db, store: Store, loads: map<nat, Load>)

  datatype Event =
    | Tick(to: int)
    | Change(db: Db)                    // any writer of roles, invalidating or not
    | Drop(keys: set<string>)           // DEL, KEYS + DEL or an eviction
    | Read(id: nat, user: string)       // the factory's query
    | Write(id: nat, succeeds: bool)    // SETEX, whose error is swallowed

  ghost predicate Enabled(delay: int, s: State, e: Event) {
    match e
    case Tick(to) => s.now <= to
    case Change(_) => true
    case Drop(_) => true
    case Read(id, _) => id !in s.loads
    case Write(id, _) => id in s.loads && s.now - s.loads[id].readAt <= delay
  }

  function Next(s: State, e: Event): State {
    match e
    case Tick(to) => s.(now := to)
    case Change(db) => s.(db := db)
    case Drop(keys) => s.(store := s.store - keys)
    case Read(id, user) => s.(loads := s.loads[id := Load(user, Derived(s.db, user), s.now)])
    case Write(id, succeeds) =>
      if id !in s.loads then s
      else
        var l := s.loads[id];
        State(s.now, s.db,
              if succeeds then Put(s.store, PermKey(l.user), l.permissions, PERMS_TTL, s.now) else s.store,
              s.loads - {id})
  }

  ghost predicate Initial(s: State) {
    s.store == map[] && s.loads == map[]
  }

  /** `trace[0], trace[1], ...` are the states along a run. */
  ghost predicate Trace(delay: int, trace: seq<State>) {
    && trace != []
    && forall i :: 0 < i < |trace| ==> Follows(delay, trace[i - 1], trace[i])
  }

  ghost predicate Follows(delay: int, s: State, t: State) {
    exists e :: Enabled(delay, s, e) && t == Next(s, e)
  }

  /** The guard may decide by `permissions` for `user` now: from the live entry, or from its own load. */
  ghost predicate Served(delay: int, s: State, user: string, permissions: set<string>) {
    || Lookup(s.store, PermKey(user), s.now) == Some(permissions)
    || exists id :: id in s.loads && OwnLoad(delay, s, s.loads[id], user, permissions)
  }

  ghost predicate OwnLoad(delay: int, s: State, l: Load, user: string, permissions: set<string>) {
    l.user == user && l.permissions == permissions && s.now - l.readAt <= delay
  }

  /** At some state up to `i`, no earlier than `since`, this was the user's exact permission set. */
  ghost predicate WasExact(trace: seq<State>, i: int, user: string, permissions: set<string>, since: int)
    requires 0 <= i < |trace|
  {
    exists k :: 0 <= k <= i && IsExact(trace[k], user, permissions) && since <= trace[k].now <= trace[i].now
  }

  ghost predicate IsExact(s: State, user: string, permissions: set<string>) {
    Derived(s.db, user) == permissions
  }

  ghost predicate EntriesWereExact(delay: int, trace: seq<State>, i: int)
    requires 0 <= i < |trace|
  {
    forall user :: PermKey(user) in trace[i].store ==>
      var e := trace[i].store[PermKey(user)];
      WasExact(trace, i, user, e.permissions, e.expiresAt - 60000 - delay)
  }

  ghost predicate LoadsWereExact(trace: seq<State>, i: int)
    requires 0 <= i < |trace|
  {
    forall id :: id in trace[i].loads ==>
      WasExact(trace, i, trace[i].loads[id].user, trace[i].loads[id].permissions, trace[i].loads[id].readAt)
  }

  lemma WasExactStays(delay: int, trace: seq<State>, i: int, user: string, permissions: set<string>, since: int,
                      until: int)
    requires Trace(delay, trace) && 0 < i < |trace|
    requires WasExact(trace, i - 1, user, permissions, since) && until <= since
    ensures WasExact(trace, i, user, permissions, until)
  {
    var k :| 0 <= k <= i - 1 && IsExact(trace[k], user, permissions) && since <= trace[k].now <= trace[i - 1].now;
    assert Follows(delay, trace[i - 1], trace[i]);
    assert trace[i - 1].now <= trace[i].now;
  }

  lemma LoadsStayExact(delay: int, trace: seq<State>, i: int)
    requires Trace(delay, trace) && 0 < i < |trace| && LoadsWereExact(trace, i - 1)
    ensures LoadsWereExact(trace, i)
  {
    var s, t := trace[i - 1], trace[i];
    assert Follows(delay, s, t);
    forall id | id in t.loads
      ensures WasExact(trace, i, t.loads[id].user, t.loads[id].permissions, t.loads[id].readAt)
    {
      var l := t.loads[id];
      if id in s.loads && s.loads[id] == l {
        WasExactStays(delay, trace, i, l.user, l.permissions, l.readAt, l.readAt);
      } else {
        assert IsExact(trace[i], l.user, l.permissions);
      }
    }
  }

  lemma EntriesStayExact(delay: int, trace: seq<State>, i: int)
    requires Trace(delay, trace) && 0 < i < |trace|
    requires LoadsWereExact(trace, i - 1) && EntriesWereExact(delay, trace, i - 1)
    ensures EntriesWereExact(delay, trace, i)
  {
    var s, t := trace[i - 1], trace[i];
    assert Follows(delay, s, t);
    var e :| Enabled(delay, s, e) && t == Next(s, e);
    forall user | PermKey(user) in t.store
      ensures WasExact(trace, i, user, t.store[PermKey(user)].permissions,
                       t.store[PermKey(user)].expiresAt - 60000 - delay)
    {
      var entry := t.store[PermKey(user)];
      if PermKey(user) in s.store && s.store[PermKey(user)] == entry {
        var since := entry.expiresAt - 60000 - delay;
        WasExactStays(delay, trace, i, user, entry.permissions, since, since);
      } else {
        var l := s.loads[e.id];
        if l.user != user { KeysDiffer(l.user, user); }
        assert entry == Entry(l.permissions, s.now + 60000);
        WasExactStays(delay, trace, i, user, l.permissions, l.readAt, entry.expiresAt - 60000 - delay);
      }
    }
  }

  lemma {:induction false} AlwaysWereExact(delay: int, trace: seq<State>, i: int)
    requires Trace(delay, trace) && Initial(trace[0]) && 0 <= i < |trace|
    ensures LoadsWereExact(trace, i) && EntriesWereExact(delay, trace, i)
  {
    if i > 0 {
      AlwaysWereExact(delay, trace, i - 1);
      LoadsStayExact(delay, trace, i);
      EntriesStayExact(delay, trace, i);
    }
  }

  /**
   Bounded staleness, over every interleaving: whatever list the guard decides by was the user's
   exact list at some instant of the last 60 seconds plus one load's delay.
   */
  lemma BoundedStaleness(delay: nat, trace: seq<State>, i: int, user: string, permissions: set<string>)
    requires Trace(delay, trace) && Initial(trace[0]) && 0 <= i < |trace|
    requires Served(delay, trace[i], user, permissions)
    ensures WasExact(trace, i, user, permissions, trace[i].now - 60000 - delay)
  {
    AlwaysWereExact(delay, trace, i);
    var s := trace[i];
    if Lookup(s.store, PermKey(user), s.now) == Some(permissions) {
      var e := s.store[PermKey(user)];
      Weaken(trace, i, user, permissions, e.expiresAt - 60000 - delay, s.now - 60000 - delay);
    } else {
      var id :| id in s.loads && OwnLoad(delay, s, s.loads[id], user, permissions);
      Weaken(trace, i, user, permissions, s.loads[id].readAt, s.now - 60000 - delay);
    }
  }

  lemma Weaken(trace: seq<State>, i: int, user: string, permissions: set<string>, since: int, until: int)
    requires 0 <= i < |trace| && WasExact(trace, i, user, permissions, since) && until <= since
    ensures WasExact(trace, i, user, permissions, until)
  {
  }

  /** `events[i]` leads from `trace[i]` to `trace[i + 1]`. */
  ghost predicate RunOf(delay: int, trace: seq<State>, events: seq<Event>) {
    && |trace| == |events| + 1
    && forall i :: 0 <= i < |events| ==>
         Enabled(delay, trace[i], events[i]) && trace[i + 1] == Next(trace[i], events[i])
  }

  /** A load reads, the roles change and the change is invalidated, and then the load writes and is served from. */
  function LateWrite(delay: int, start: int, after: Db, user: string): seq<Event> {
    [Read(0, user), Change(after), Drop({PermKey(user)}), Tick(start + delay), Write(0, true),
     Tick(start + delay + 60000)]
  }

  /**
   The bound cannot be lowered, even when every change is followed by its invalidation and Redis
   never fails: a load that read just before the change writes the old list just after the
   invalidation, and it is served for its whole lifetime.
   */
  lemma BoundIsReached(delay: nat, start: int, db: Db, after: Db, user: string) returns (trace: seq<State>)
    requires Derived(after, user) != Derived(db, user)
    ensures trace != [] && trace[0] == State(start, db, map[], map[])
    ensures RunOf(delay, trace, LateWrite(delay, start, after, user)) && Trace(delay, trace)
    ensures trace[|trace| - 1].now == start + 60000 + delay
    ensures Served(delay, trace[|trace| - 1], user, Derived(db, user))
    ensures !WasExact(trace, |trace| - 1, user, Derived(db, user), start + 1)
  {
    var s0 := State(start, db, map[], map[]);
    var events := LateWrite(delay, start, after, user);
    var s1 := Next(s0, events[0]);
    var s2 := Next(s1, events[1]);
    var s3 := Next(s2, events[2]);
    var s4 := Next(s3, events[3]);
    var s5 := Next(s4, events[4]);
    var s6 := Next(s5, events[5]);
    trace := [s0, s1, s2, s3, s4, s5, s6];
    RunIsTrace(delay, trace, events);
    assert s6.store == map[PermKey(user) := Entry(Derived(db, user), start + delay + 60000)];
  }

  lemma RunIsTrace(delay: int, trace: seq<State>, events: seq<Event>)
    requires RunOf(delay, trace, events)
    ensures Trace(delay, trace)
  {
    forall i | 0 < i < |trace|
      ensures Follows(delay, trace[i - 1], trace[i])
    {
      assert Enabled(delay, trace[i - 1], events[i - 1]);
    }
  }

  // ---------------------------------------------------------------- Serial calls are interleavings

  /** Some run leads from `s` to `t`. */
  ghost predicate Reaches(delay: int, s: State, t: State) {
    exists trace :: Trace(delay, trace) && trace[0] == s && trace[|trace| - 1] == t
  }

  lemma ReachesBy(delay: int, s: State, e1: Event, e2: Event)
    requires Enabled(delay, s, e1) && Enabled(delay, Next(s, e1), e2)
    ensures Reaches(delay, s, Next(Next(s, e1), e2))
  {
    var trace := [s, Next(s, e1), Next(Next(s, e1), e2)];
    assert Follows(delay, trace[0], trace[1]) && Follows(delay, trace[1], trace[2]);
    assert Trace(delay, trace);
  }

  function At(now: int, a: RoleRuns.Access): State {
    State(now, a.db, a.store, map[])
  }

  /** Every call of the role service and the guard, with Redis up or down, is a path of these events. */
  lemma CallIsInterleaving(delay: nat, now: int, a: RoleRuns.Access, c: RoleRuns.Call)
    requires c.op.Guard? ==> c.op.now == now
    ensures Reaches(delay, At(now, a), At(now, RoleRuns.Step(a, c)))
  {
    var s, after := At(now, a), RoleRuns.Step(a, c);
    if c.op.Guard? && after != a {
      ReachesBy(delay, s, Read(0, c.op.user), Write(0, true));
      assert Next(Next(s, Read(0, c.op.user)), Write(0, true)) == At(now, after);
    } else {
      var gone := a.store.Keys - after.store.Keys;
      ReachesBy(delay, s, Change(after.db), Drop(gone));
      assert a.store - gone == after.store by { OnlyDrops(a, c); }
    }
  }

  lemma OnlyDrops(a: RoleRuns.Access, c: RoleRuns.Call)
    requires c.op.Guard? ==> RoleRuns.Step(a, c) == a
    ensures RoleRuns.Step(a, c).store.Keys <= a.store.Keys
    ensures forall k :: k in RoleRuns.Step(a, c).store ==> RoleRuns.Step(a, c).store[k] == a.store[k]
  {
  }

  // ---------------------------------------------------------------- Whole serial runs

  /** A call and the time it is made at. */
  datatype Timed = Timed(at: int, call: RoleRuns.Call)

  function CallsOf(calls: seq<Timed>): seq<RoleRuns.Call> {
    seq(|calls|, i requires 0 <= i < |calls| => calls[i].call)
  }

  /** Time does not run backwards, and a guard check reads the time it is made at. */
  predicate Clocked(from: int, calls: seq<Timed>)
    decreases |calls|
  {
    calls == [] ||
    (&& from <= calls[0].at && (calls[0].call.op.Guard? ==> calls[0].call.op.now == calls[0].at)
     && Clocked(calls[0].at, calls[1..]))
  }

  function LastTime(from: int, calls: seq<Timed>): int {
    if calls == [] then from else calls[|calls| - 1].at
  }

  lemma ReachesTrans(delay: int, s: State, t: State, u: State)
    requires Reaches(delay, s, t) && Reaches(delay, t, u)
    ensures Reaches(delay, s, u)
  {
    var first :| Trace(delay, first) && first[0] == s && first[|first| - 1] == t;
    var second :| Trace(delay, second) && second[0] == t && second[|second| - 1] == u;
    var both := first + second[1..];
    forall i | 0 < i < |both|
      ensures Follows(delay, both[i - 1], both[i])
    {
      if i >= |first| {
        assert both[i] == second[i - |first| + 1] && both[i - 1] == second[i - |first|];
      }
    }
    assert both[|both| - 1] == u;
    assert Trace(delay, both);
  }

  lemma TickReaches(delay: int, s: State, to: int)
    requires s.now <= to
    ensures Reaches(delay, s, s.(now := to))
  {
    var trace := [s, s.(now := to)];
    assert Enabled(delay, s, Tick(to)) && trace[1] == Next(s, Tick(to));
    assert Trace(delay, trace);
  }

  /** A serial run of the role service and the guard, with Redis failing wherever it does, is one interleaving. */
  lemma {:induction false} RunIsInterleaving(delay: nat, from: int, a: RoleRuns.Access, calls: seq<Timed>)
    requires Clocked(from, calls)
    ensures Reaches(delay, At(from, a), At(LastTime(from, calls), RoleRuns.Run(a, CallsOf(calls))))
    decreases |calls|
  {
    if calls == [] {
      TickReaches(delay, At(from, a), from);
    } else {
      var at, call := calls[0].at, calls[0].call;
      var next := RoleRuns.Step(a, call);
      assert CallsOf(calls)[1..] == CallsOf(calls[1..]);
      TickReaches(delay, At(from, a), at);
      CallIsInterleaving(delay, at, a, call);
      ReachesTrans(delay, At(from, a), At(at, a), At(at, next));
      RunIsInterleaving(delay, at, next, calls[1..]);
      ReachesTrans(delay, At(from, a), At(at, next), At(LastTime(from, calls), RoleRuns.Run(a, CallsOf(calls))));
    }
  }

  /** Some run leads from `s` to `t` in which the list was exact no earlier than `since`. */
  ghost predicate ReachesExact(delay: int, s: State, t: State, user: string, permissions: set<string>, since: int) {
    exists trace ::
      && Trace(delay, trace) && trace[0] == s && trace[|trace| - 1] == t
      && WasExact(trace, |trace| - 1, user, permissions, since)
  }

  lemma ReachedIsBounded(delay: nat, s: State, t: State, user: string, permissions: set<string>)
    requires Reaches(delay, s, t) && Initial(s) && Served(delay, t, user, permissions)
    ensures ReachesExact(delay, s, t, user, permissions, t.now - 60000 - delay)
  {
    var trace :| Trace(delay, trace) && trace[0] == s && trace[|trace| - 1] == t;
    BoundedStaleness(delay, trace, |trace| - 1, user, permissions);
  }

  /**
   So the bound covers whole serial runs: a list cached at their end, whatever Redis errors were
   swallowed on the way, was the user's exact list within the last 60 seconds of a history that
   leads through the run.
   */
  lemma SerialStaleness(from: int, db: Db, calls: seq<Timed>, now: int, user: string, permissions: set<string>)
    requires Clocked(from, calls) && LastTime(from, calls) <= now
    requires var a := RoleRuns.Run(RoleRuns.Access(db, map[]), CallsOf(calls));
             Lookup(a.store, PermKey(user), now) == Some(permissions)
    ensures ReachesExact(0, State(from, db, map[], map[]),
                         At(now, RoleRuns.Run(RoleRuns.Access(db, map[]), CallsOf(calls))),
                         user, permissions, now - 60000)
  {
    var start := RoleRuns.Access(db, map[]);
    var a := RoleRuns.Run(start, CallsOf(calls));
    RunIsInterleaving(0, from, start, calls);
    TickReaches(0, At(LastTime(from, calls), a), now);
    ReachesTrans(0, At(from, start), At(LastTime(from, calls), a), At(now, a));
    ReachedIsBounded(0, At(from, start), At(now, a), user, permissions);
  }
}
