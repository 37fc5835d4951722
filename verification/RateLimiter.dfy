/**
 The fixed-window rate limiter (src/stripe/stripe.controller.ts). A key's window opens with its
 first call, lasts until a call comes strictly after `resetTime`, and counts admitted calls.
 */
module RateLimiter {
  import opened Wrappers

  datatype Window = Window(count: int, resetTime: int)

  type Store = map<string, Window>

  function Of(store: Store, key: string): Option<Window> {
    if key in store then Some(store[key]) else None
  }

  predicate Expired(w: Option<Window>, now: int) {
    w.None? || w.value.resetTime < now
  }

  predicate Admits(w: Option<Window>, limit: int, now: int) {
    Expired(w, now) || w.value.count < limit
  }

  function After(w: Option<Window>, limit: int, windowMs: int, now: int): Window {
    if Expired(w, now) then Window(1, now + windowMs)
    else if w.value.count < limit then w.value.(count := w.value.count + 1)
    else w.value
  }

  class RateLimiter {
    var windows: Store

    constructor ()
      ensures windows == map[]
    {
      windows := map[];
    }

    /** `checkRateLimit`; a call that is not admitted is an error to its caller. */
    method CheckRateLimit(key: string, limit: int, windowSeconds: int, now: int) returns (admitted: bool)
      modifies this
      ensures admitted == Admits(Of(old(windows), key), limit, now)
      ensures Of(windows, key) == Some(After(Of(old(windows), key), limit, windowSeconds * 1000, now))
      ensures forall other :: other != key ==> Of(windows, other) == Of(old(windows), other)
    {
      var windowMs := windowSeconds * 1000;
      if key !in windows || windows[key].resetTime < now {
        windows := windows[key := Window(1, now + windowMs)];
        return true;
      }
      var current := windows[key];
      if current.count >= limit {
        return false;
      }
      windows := windows[key := current.(count := current.count + 1)];
      return true;
    }
  }

  // ---------------------------------------------------------------- Call traces

  ghost predicate Monotone(calls: seq<int>) {
    forall i, j :: 0 <= i < j < |calls| ==> calls[i] <= calls[j]
  }

  /** How many calls of a trace on one key are admitted at a time in `[start, end]`. */
  function Admitted(w: Option<Window>, limit: int, windowMs: int, calls: seq<int>, start: int, end: int): nat
    decreases |calls|
  {
    if calls == [] then 0
    else
      (if Admits(w, limit, calls[0]) && start <= calls[0] <= end then 1 else 0)
      + Admitted(Some(After(w, limit, windowMs, calls[0])), limit, windowMs, calls[1..], start, end)
  }

  /** While a window lasts it admits exactly the calls that still fit. */
  lemma {:induction false} WindowAdmits(w: Window, limit: int, windowMs: int, calls: seq<int>, start: int, end: int)
    requires forall i :: 0 <= i < |calls| ==> start <= calls[i] <= end && calls[i] <= w.resetTime
    ensures Admitted(Some(w), limit, windowMs, calls, start, end) == Min(|calls|, Max(0, limit - w.count))
    decreases |calls|
  {
    if calls != [] { WindowAdmits(After(Some(w), limit, windowMs, calls[0]), limit, windowMs, calls[1..], start, end); }
  }

  /** One stored window, from the call that opens it: min(calls, max(1, limit)) are admitted. */
  lemma PerWindowExactly(w: Option<Window>, limit: int, windowMs: int, calls: seq<int>, start: int, end: int)
    requires calls != [] && Expired(w, calls[0])
    requires forall i :: 0 <= i < |calls| ==> start <= calls[i] <= end
    requires forall i :: 1 <= i < |calls| ==> calls[i] <= calls[0] + windowMs
    ensures Admitted(w, limit, windowMs, calls, start, end) == Min(|calls|, Max(1, limit))
  {
    WindowAdmits(Window(1, calls[0] + windowMs), limit, windowMs, calls[1..], start, end);
  }

  lemma {:induction false} NoneAfter(w: Option<Window>, limit: int, windowMs: int, calls: seq<int>, start: int,
                                     end: int)
    requires forall i :: 0 <= i < |calls| ==> calls[i] > end
    ensures Admitted(w, limit, windowMs, calls, start, end) == 0
    decreases |calls|
  {
    if calls != [] { NoneAfter(Some(After(w, limit, windowMs, calls[0])), limit, windowMs, calls[1..], start, end); }
  }

  /** An interval that ends inside the current window sees at most what the window has left. */
  lemma {:induction false} InsideWindow(w: Window, limit: int, windowMs: int, calls: seq<int>, start: int, end: int)
    requires Monotone(calls) && end <= w.resetTime
    ensures Admitted(Some(w), limit, windowMs, calls, start, end) <= Max(0, limit - w.count)
    decreases |calls|
  {
    if calls != [] {
      var next := After(Some(w), limit, windowMs, calls[0]);
      if calls[0] <= w.resetTime {
        InsideWindow(next, limit, windowMs, calls[1..], start, end);
      } else {
        NoneAfter(Some(next), limit, windowMs, calls[1..], start, end);
      }
    }
  }

  lemma {:induction false} AcrossWindows(w: Window, limit: int, windowMs: int, calls: seq<int>, start: int)
    requires Monotone(calls) && w.count >= 1
    ensures w.resetTime >= start ==>
              Admitted(Some(w), limit, windowMs, calls, start, start + windowMs)
              <= Max(0, limit - w.count) + Max(1, limit)
    ensures Admitted(Some(w), limit, windowMs, calls, start, start + windowMs) <= 2 * Max(1, limit) - 1
    decreases |calls|
  {
    if calls != [] {
      var next := After(Some(w), limit, windowMs, calls[0]);
      if w.resetTime < calls[0] && start <= calls[0] {
        InsideWindow(next, limit, windowMs, calls[1..], start, start + windowMs);
      } else {
        AcrossWindows(next, limit, windowMs, calls[1..], start);
      }
    }
  }

  /**
   Any closed interval as long as a window, wherever it starts, sees at most 2*max(1, limit) - 1
   admitted calls of a key.
   */
  lemma IntervalBound(limit: int, windowMs: int, calls: seq<int>, start: int)
    requires Monotone(calls)
    ensures Admitted(None, limit, windowMs, calls, start, start + windowMs) <= 2 * Max(1, limit) - 1
  {
    if calls != [] {
      var next := After(None, limit, windowMs, calls[0]);
      if start <= calls[0] {
        InsideWindow(next, limit, windowMs, calls[1..], start, start + windowMs);
      } else {
        AcrossWindows(next, limit, windowMs, calls[1..], start);
      }
    }
  }

  // ---------------------------------------------------------------- All keys together

  datatype Call = Call(key: string, limit: int, windowMs: int, now: int)

  function TimesOf(trace: seq<Call>, key: string): seq<int> {
    if trace == [] then [] else (if trace[0].key == key then [trace[0].now] else []) + TimesOf(trace[1..], key)
  }

  /** Calls of one key admitted in `[start, end]` when calls of every key share the store. */
  function AdmittedOf(store: Store, trace: seq<Call>, key: string, start: int, end: int): nat
    decreases |trace|
  {
    if trace == [] then 0
    else
      var c := trace[0];
      (if c.key == key && Admits(Of(store, c.key), c.limit, c.now) && start <= c.now <= end then 1 else 0)
      + AdmittedOf(store[c.key := After(Of(store, c.key), c.limit, c.windowMs, c.now)], trace[1..], key, start, end)
  }

  ghost predicate SameRule(trace: seq<Call>, key: string, limit: int, windowMs: int) {
    forall i :: 0 <= i < |trace| && trace[i].key == key ==> trace[i].limit == limit && trace[i].windowMs == windowMs
  }

  /** Keys do not disturb each other. */
  lemma {:induction false} KeysAreIndependent(store: Store, trace: seq<Call>, key: string, limit: int, windowMs: int,
                                              start: int, end: int)
    requires SameRule(trace, key, limit, windowMs)
    ensures AdmittedOf(store, trace, key, start, end)
            == Admitted(Of(store, key), limit, windowMs, TimesOf(trace, key), start, end)
    decreases |trace|
  {
    if trace != [] {
      var c := trace[0];
      var next := store[c.key := After(Of(store, c.key), c.limit, c.windowMs, c.now)];
      KeysAreIndependent(next, trace[1..], key, limit, windowMs, start, end);
      if c.key == key {
        assert TimesOf(trace, key)[1..] == TimesOf(trace[1..], key);
      } else {
        assert TimesOf(trace, key) == TimesOf(trace[1..], key);
      }
    }
  }

  lemma {:induction false} TimesMonotone(trace: seq<Call>, key: string, from: int)
    requires forall i, j :: 0 <= i < j < |trace| ==> trace[i].now <= trace[j].now
    requires forall i :: 0 <= i < |trace| ==> from <= trace[i].now
    ensures Monotone(TimesOf(trace, key)) && forall i :: 0 <= i < |TimesOf(trace, key)| ==>
            from <= TimesOf(trace, key)[i]
    decreases |trace|
  {
    if trace != [] { TimesMonotone(trace[1..], key, trace[0].now); }
  }

  /**
   The limiter over whole runs, all keys together: any closed interval as long as a key's window,
   wherever it starts, sees at most 2*max(1, limit) - 1 admitted calls of that key.
   */
  lemma AtMostTwice(trace: seq<Call>, key: string, limit: int, windowMs: int, start: int)
    requires forall i, j :: 0 <= i < j < |trace| ==> trace[i].now <= trace[j].now
    requires SameRule(trace, key, limit, windowMs)
    ensures AdmittedOf(map[], trace, key, start, start + windowMs) <= 2 * Max(1, limit) - 1
  {
    KeysAreIndependent(map[], trace, key, limit, windowMs, start, start + windowMs);
    if trace != [] { TimesMonotone(trace, key, trace[0].now); }
    IntervalBound(limit, windowMs, TimesOf(trace, key), start);
  }

  function Burst(n: nat, at: int): seq<int> {
    seq(n, i => at)
  }

  /** That many do get through: one call, then two bursts either side of the window's end. */
  lemma BoundIsReached(limit: nat, windowMs: nat)
    requires limit >= 1 && windowMs >= 1
    ensures var calls := [0] + Burst(limit - 1, windowMs) + Burst(limit, windowMs + 1);
            Monotone(calls) && Admitted(None, limit, windowMs, calls, 1, 1 + windowMs) == 2 * limit - 1
  {
    var second, third := Burst(limit - 1, windowMs), Burst(limit, windowMs + 1);
    var calls := [0] + second + third;
    assert calls[1..] == second + third;
    BurstFills(Window(1, windowMs), limit, windowMs, second, third);
    PerWindowExactly(Some(Window(limit, windowMs)), limit, windowMs, third, 1, 1 + windowMs);
  }

  lemma {:induction false} BurstFills(w: Window, limit: int, windowMs: int, burst: seq<int>, rest: seq<int>)
    requires w.resetTime == windowMs >= 1 && w.count + |burst| == limit
    requires forall i :: 0 <= i < |burst| ==> burst[i] == windowMs
    ensures Admitted(Some(w), limit, windowMs, burst + rest, 1, 1 + windowMs)
            == |burst| + Admitted(Some(Window(limit, windowMs)), limit, windowMs, rest, 1, 1 + windowMs)
    decreases |burst|
  {
    if burst == [] {
      assert burst + rest == rest;
    } else {
      assert (burst + rest)[1..] == burst[1..] + rest;
      BurstFills(w.(count := w.count + 1), limit, windowMs, burst[1..], rest);
    }
  }
}
