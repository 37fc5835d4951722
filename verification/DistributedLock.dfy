/**
 The Redis lock (src/common/services/distributed-lock.service.ts): one key per lock, set with NX and
 PX, deleted only by a script that compares the token. Times are in milliseconds.
 */
module DistributedLock {
  import opened Wrappers

  datatype Entry = Entry(token: nat, expiresAt: int)

  type Store = map<string, Entry>

  function LockKey(key: string): string {
    "lock:" + key
  }

  predicate Free(store: Store, key: string, now: int) {
    LockKey(key) in store ==> store[LockKey(key)].expiresAt < now
  }

  function SetNx(store: Store, key: string, token: nat, ttl: int, now: int): Store {
    if Free(store, key, now) then store[LockKey(key) := Entry(token, now + ttl)] else store
  }

  predicate Releases(store: Store, key: string, token: nat, now: int) {
    !Free(store, key, now) && store[LockKey(key)].token == token
  }

  function CompareAndDelete(store: Store, key: string, token: nat, now: int): Store {
    if Releases(store, key, token, now) then store - {LockKey(key)} else store
  }

  // ---------------------------------------------------------------- Retries

  function Pow2(k: nat): (p: nat)
    ensures p >= 1
  {
    if k == 0 then 1 else 2 * Pow2(k - 1)
  }

  lemma {:induction false} Pow2Grows(i: nat, k: nat)
    requires i <= k
    ensures Pow2(i) <= Pow2(k)
  {
    if i < k { Pow2Grows(i, k - 1); }
  }

  /** Redis as an attempt finds it, after whatever the other clients have done. */
  datatype World = World(now: int, store: Store)

  /**
   `acquireLock`: `worlds[i]` is what attempt `i` meets. The first attempt that finds the lock free
   takes it; the sleeps before it add up to `retryDelay * (2^i - 1)`.
   */
  method AcquireLock(worlds: seq<World>, key: string, token: nat, ttl: int, attempts: int, retryDelay: nat)
    returns (lock: Option<nat>, made: nat, after: Store, slept: nat)
    requires 0 < attempts ==> |worlds| == attempts
    ensures made <= Max(0, attempts)
    ensures lock == (if made < attempts then Some(token) else None)
    ensures forall i :: 0 <= i < made ==> !Free(worlds[i].store, key, worlds[i].now)
    ensures made < attempts ==>
              && Free(worlds[made].store, key, worlds[made].now)
              && after == SetNx(worlds[made].store, key, token, ttl, worlds[made].now)
              && after[LockKey(key)] == Entry(token, worlds[made].now + ttl)
              && slept == retryDelay * (Pow2(made) - 1)
    ensures 0 < made == attempts ==> after == worlds[made - 1].store && slept == retryDelay * (Pow2(made - 1) - 1)
    ensures attempts <= 0 ==> slept == 0
    ensures attempts > 0 ==> slept <= retryDelay * (Pow2(attempts - 1) - 1)
  {
    after, slept, made := map[], 0, 0;
    while made < attempts
      invariant 0 <= made <= Max(0, attempts)
      invariant forall i :: 0 <= i < made ==> !Free(worlds[i].store, key, worlds[i].now)
      invariant made > 0 ==> after == worlds[made - 1].store
      invariant made < attempts ==> slept == retryDelay * (Pow2(made) - 1)
      invariant 0 < made == attempts ==> slept == retryDelay * (Pow2(made - 1) - 1)
      invariant attempts <= 0 ==> slept == 0
    {
      after := worlds[made].store;
      if Free(after, key, worlds[made].now) {
        after := after[LockKey(key) := Entry(token, worlds[made].now + ttl)];
        Pow2Grows(made, attempts - 1);
        Scale(retryDelay, Pow2(made) - 1, Pow2(attempts - 1) - 1);
        return Some(token), made, after, slept;
      }
      if made < attempts - 1 {
        BackoffStep(retryDelay, made);
        slept := slept + retryDelay * Pow2(made);
      }
      made := made + 1;
    }
    lock := None;
  }

  datatype LockError = NotAcquired | OperationFailed

  const RETRY_ATTEMPTS: int := 3
  const RETRY_DELAY: nat := 100

  /**
   `withLock`: `worlds` is what the three attempts meet and `afterwards` what the operation leaves.
   An operation that ran releases its own lock whether or not it failed; one that could not get the
   lock does not run, and waited 300 ms.
   */
  method WithLock(worlds: seq<World>, key: string, token: nat, ttl: int, operationOk: bool, afterwards: World)
    returns (r: Result<(), LockError>, after: Store, slept: nat)
    requires |worlds| == RETRY_ATTEMPTS
    ensures r == Failure(NotAcquired) <==> forall i :: 0 <= i < 3 ==> !Free(worlds[i].store, key, worlds[i].now)
    ensures r == Failure(NotAcquired) ==> after == worlds[2].store && slept == 300
    ensures r != Failure(NotAcquired) ==>
              && r == (if operationOk then Success(()) else Failure(OperationFailed))
              && after == CompareAndDelete(afterwards.store, key, token, afterwards.now)
    ensures slept <= 300
  {
    var lock, made;
    lock, made, after, slept := AcquireLock(worlds, key, token, ttl, RETRY_ATTEMPTS, RETRY_DELAY);
    assert Pow2(0) == 1 && Pow2(1) == 2 && Pow2(2) == 4;
    if lock.None? {
      return Failure(NotAcquired), after, slept;
    }
    after := CompareAndDelete(afterwards.store, key, token, afterwards.now);
    r := if operationOk then Success(()) else Failure(OperationFailed);
  }

  lemma Scale(k: nat, a: nat, b: nat)
    requires a <= b
    ensures k * a <= k * b
  {
  }

  lemma BackoffStep(retryDelay: nat, i: nat)
    ensures retryDelay * (Pow2(i) - 1) + retryDelay * Pow2(i) == retryDelay * (Pow2(i + 1) - 1)
  {
  }

  // ---------------------------------------------------------------- Many clients

  /** A client that acquired and has not yet released: running its operation, or about to release. */
  datatype Session = Session(key: string, start: int, ttl: int, inBody: bool)

  datatype State = State(now: int, store: Store, sessions: map<nat, Session>)

  datatype Event =
    | Tick(to: int)
    | Attempt(token: nat, key: string, ttl: int)
    | BodyEnds(token: nat)
    | Release(token: nat)
    | Crash(token: nat)                 // the client vanishes without releasing

  /** Time does not run backwards, tokens in use are distinct, and clients act on their own locks. */
  predicate Legal(s: State, e: Event) {
    match e
    case Tick(to) => s.now <= to
    case Attempt(token, _, _) => token !in s.sessions
    case BodyEnds(token) => token in s.sessions && s.sessions[token].inBody
    case Release(token) => token in s.sessions && !s.sessions[token].inBody
    case Crash(token) => token in s.sessions
  }

  function Next(s: State, e: Event): State
    requires Legal(s, e)
  {
    match e
    case Tick(to) => s.(now := to)
    case Attempt(token, key, ttl) =>
      if Free(s.store, key, s.now)
      then s.(store := SetNx(s.store, key, token, ttl, s.now),
              sessions := s.sessions[token := Session(key, s.now, ttl, true)])
      else s
    case BodyEnds(token) => s.(sessions := s.sessions[token := s.sessions[token].(inBody := false)])
    case Release(token) =>
      s.(store := CompareAndDelete(s.store, s.sessions[token].key, token, s.now), sessions := s.sessions - {token})
    case Crash(token) => s.(sessions := s.sessions - {token})
  }

  ghost predicate LegalRun(s: State, events: seq<Event>)
    decreases |events|
  {
    events == [] || (Legal(s, events[0]) && LegalRun(Next(s, events[0]), events[1..]))
  }

  function Run(s: State, events: seq<Event>): State
    requires LegalRun(s, events)
    decreases |events|
  {
    if events == [] then s else Run(Next(s, events[0]), events[1..])
  }

  function Start(now: int): State {
    State(now, map[], map[])
  }

  /** `token` holds its lock and the lock has not expired. */
  predicate Unexpired(s: State, token: nat) {
    token in s.sessions && s.now <= s.sessions[token].start + s.sessions[token].ttl
  }

  /** Redis holds exactly the token of every unexpired session under its key. */
  ghost predicate Inv(s: State) {
    forall token :: Unexpired(s, token) ==>
      var l := s.sessions[token];
      LockKey(l.key) in s.store && s.store[LockKey(l.key)] == Entry(token, l.start + l.ttl)
  }

  lemma NextKeepsInv(s: State, e: Event)
    requires Inv(s) && Legal(s, e)
    ensures Inv(Next(s, e))
  {
    var t := Next(s, e);
    forall token | Unexpired(t, token)
      ensures var l := t.sessions[token];
              LockKey(l.key) in t.store && t.store[LockKey(l.key)] == Entry(token, l.start + l.ttl)
    {
      if token in s.sessions { assert Unexpired(s, token); }
    }
  }

  lemma {:induction false} RunKeepsInv(s: State, events: seq<Event>)
    requires Inv(s) && LegalRun(s, events)
    ensures Inv(Run(s, events))
    decreases |events|
  {
    if events != [] {
      NextKeepsInv(s, events[0]);
      RunKeepsInv(Next(s, events[0]), events[1..]);
    }
  }

  /** At most one client holds an unexpired lock per key, in every state any run reaches. */
  lemma OneHolder(now: int, events: seq<Event>, a: nat, b: nat)
    requires LegalRun(Start(now), events)
    requires var s := Run(Start(now), events);
             Unexpired(s, a) && Unexpired(s, b) && s.sessions[a].key == s.sessions[b].key
    ensures a == b
  {
    RunKeepsInv(Start(now), events);
  }

  /**
   So two operations under one key run at once only when one of them has outlived its lock: if these
   two end within their TTLs they never overlap, whatever happens under other keys.
   */
  lemma BodiesDoNotOverlap(now: int, events: seq<Event>, a: nat, b: nat)
    requires LegalRun(Start(now), events) && a != b
    requires var s := Run(Start(now), events);
             && a in s.sessions && b in s.sessions && s.sessions[a].inBody && s.sessions[b].inBody
             && s.sessions[a].key == s.sessions[b].key
    ensures var s := Run(Start(now), events);
            !Unexpired(s, a) || !Unexpired(s, b)
  {
    var s := Run(Start(now), events);
    if Unexpired(s, a) && Unexpired(s, b) {
      OneHolder(now, events, a, b);
      assert false;
    }
  }

  /** Releasing, however late, leaves every other client's unexpired lock in place and held. */
  lemma ReleaseSparesOthers(now: int, events: seq<Event>, token: nat, other: nat)
    requires LegalRun(Start(now), events) && token != other
    requires var s := Run(Start(now), events); Legal(s, Release(token)) && Unexpired(s, other)
    ensures var s := Run(Start(now), events);
            var t := Next(s, Release(token));
            Unexpired(t, other) && !Free(t.store, s.sessions[other].key, t.now)
                && Releases(t.store, s.sessions[other].key, other, t.now)
  {
    RunKeepsInv(Start(now), events);
    NextKeepsInv(Run(Start(now), events), Release(token));
  }

  /** `releaseLock` reports success exactly when the caller's own lock was still unexpired. */
  lemma ReleasedIffUnexpired(now: int, events: seq<Event>, token: nat)
    requires LegalRun(Start(now), events)
    requires Legal(Run(Start(now), events), Release(token))
    ensures var s := Run(Start(now), events);
            Releases(s.store, s.sessions[token].key, token, s.now) <==> Unexpired(s, token)
  {
    RunKeepsInv(Start(now), events);
    RunKeepsOwn(Start(now), events);
  }

  /** An attempt fails only against a live entry; otherwise the token is stored until its TTL is over. */
  lemma AttemptLeaves(s: State, token: nat, key: string, ttl: int)
    requires Legal(s, Attempt(token, key, ttl))
    ensures var t, k := Next(s, Attempt(token, key, ttl)), "lock:" + key;
            if k in s.store && s.now <= s.store[k].expiresAt then t == s
            else
              && t.store == s.store[k := Entry(token, s.now + ttl)]
              && t.sessions == s.sessions[token := Session(key, s.now, ttl, true)]
  {
  }

  /**
   A release within the TTL removes exactly the caller's entry, and the key is free for the next
   client at once; a later one removes nothing.
   */
  lemma ReleaseLeaves(now: int, events: seq<Event>, token: nat)
    requires LegalRun(Start(now), events)
    requires Legal(Run(Start(now), events), Release(token))
    ensures var s := Run(Start(now), events);
            var t, k := Next(s, Release(token)), "lock:" + s.sessions[token].key;
            && (Unexpired(s, token) ==> t.store == s.store - {k} && Free(t.store, s.sessions[token].key, t.now))
            && (!Unexpired(s, token) ==> t.store == s.store)
  {
    ReleasedIffUnexpired(now, events, token);
  }

  /** An entry with a session's token under its key is that session's own entry. */
  ghost predicate Own(s: State) {
    forall token :: token in s.sessions ==>
      var l := s.sessions[token];
      LockKey(l.key) in s.store && s.store[LockKey(l.key)].token == token ==>
          s.store[LockKey(l.key)].expiresAt == l.start + l.ttl
  }

  lemma {:induction false} RunKeepsOwn(s: State, events: seq<Event>)
    requires Own(s) && LegalRun(s, events)
    ensures Own(Run(s, events))
    decreases |events|
  {
    if events != [] {
      NextKeepsOwn(s, events[0]);
      RunKeepsOwn(Next(s, events[0]), events[1..]);
    }
  }

  lemma NextKeepsOwn(s: State, e: Event)
    requires Own(s) && Legal(s, e)
    ensures Own(Next(s, e))
  {
  }

  lemma {:induction false} NoLockOutlivesItsTtl(s: State, events: seq<Event>, longest: int)
    requires LegalRun(s, events)
    requires forall k :: k in s.store ==> s.store[k].expiresAt <= s.now + longest
    requires forall e :: e in events && e.Attempt? ==> e.ttl <= longest
    ensures forall k :: k in Run(s, events).store ==> Run(s, events).store[k].expiresAt <= Run(s, events).now + longest
    decreases |events|
  {
    if events != [] {
      assert events[0] in events;
      NoLockOutlivesItsTtl(Next(s, events[0]), events[1..], longest);
    }
  }

  /** The lock of a client that crashed or overran comes free by itself: waiting past the longest TTL suffices. */
  lemma FreeAgain(now: int, events: seq<Event>, longest: int, key: string, later: int)
    requires LegalRun(Start(now), events)
    requires forall e :: e in events && e.Attempt? ==> e.ttl <= longest
    requires later > Run(Start(now), events).now + longest
    ensures Free(Run(Start(now), events).store, key, later)
  {
    NoLockOutlivesItsTtl(Start(now), events, longest);
  }

  /**
   The condition of `BodiesDoNotOverlap` is needed: a body that outlives its lock by a millisecond
   can run beside the next holder's, and its late release still spares that holder's lock.
   */
  lemma OverrunOverlaps(key: string, ttl: nat, now: int) returns (s: State)
    ensures exists events :: LegalRun(Start(now), events) && s == Run(Start(now), events)
    ensures 0 in s.sessions && 1 in s.sessions && s.sessions[0].key == s.sessions[1].key == key
    ensures s.sessions[0].inBody && s.sessions[1].inBody && s.now == s.sessions[0].start + ttl + 1
    ensures Unexpired(s, 1) && !Releases(s.store, key, 0, s.now)
  {
    var e0, e1, e2 := Attempt(0, key, ttl), Tick(now + ttl + 1), Attempt(1, key, ttl);
    var s1 := Next(Start(now), e0);
    var s2 := Next(s1, e1);
    s := Next(s2, e2);
    RunCons(s2, e2, []);
    RunCons(s1, e1, [e2]);
    RunCons(Start(now), e0, [e1] + [e2]);
  }

  lemma RunCons(s: State, e: Event, rest: seq<Event>)
    requires Legal(s, e) && LegalRun(Next(s, e), rest)
    ensures LegalRun(s, [e] + rest) && Run(s, [e] + rest) == Run(Next(s, e), rest)
  {
    assert ([e] + rest)[1..] == rest;
  }

  // ---------------------------------------------------------------- The service

  /** Redis's side of the service: the two commands, each atomic. */
  class LockServer {
    var store: Store

    constructor ()
      ensures store == map[]
    {
      store := map[];
    }

    method TrySet(key: string, token: nat, ttl: int, now: int) returns (ok: bool)
      modifies this
      ensures ok == Free(old(store), key, now)
      ensures store == SetNx(old(store), key, token, ttl, now)
    {
      if LockKey(key) in store && now <= store[LockKey(key)].expiresAt {
        return false;
      }
      store := store[LockKey(key) := Entry(token, now + ttl)];
      return true;
    }

    method ReleaseLock(key: string, token: nat, now: int) returns (released: bool)
      modifies this
      ensures released == Releases(old(store), key, token, now)
      ensures store == CompareAndDelete(old(store), key, token, now)
      ensures forall k :: k in old(store) && (k != LockKey(key) || old(store)[k].token != token) ==>
              k in store && store[k] == old(store)[k]
    {
      if LockKey(key) in store && now <= store[LockKey(key)].expiresAt && store[LockKey(key)].token == token {
        store := store - {LockKey(key)};
        return true;
      }
      return false;
    }
  }
}
