/**
 Laws of the expansion across calls: windows can be split, the next occurrence is the least one,
 and stepping from one occurrence to the next rebuilds the expansion.
 */
module RecurrenceLaws {
  import opened Wrappers
  import opened Utc
  import opened Sorting
  import opened Recurrence

  // ---------------------------------------------------------------- Splitting a window

  lemma SplitDays(copies: int -> nat, windowStart: int, end: int, m: int)
    requires windowStart <= Midnight(m)
    ensures WindowDays(copies, windowStart, Date(end))
            == WindowDays(copies, windowStart, Date(Min(end, Midnight(m) - 1)))
               + WindowDays(copies, Midnight(m), Date(end))
  {
    MidnightBound(m, end);
    MidnightBound(m, windowStart);
    LastInstant(m);
    var lo := Day(windowStart);
    if windowStart <= end {
      if Midnight(m) <= end {
        ListedSplit(copies, lo, m, Day(end) + 1);
      }
    }
  }

  lemma LastInstant(m: int)
    ensures Day(Midnight(m) - 1) == m - 1 && Day(Midnight(m)) == m
  {
  }

  /** For any midnight in the window, the days before it and the days from it on make up the whole. */
  lemma OccurrencesSplit(rules: RecurringRules, dtstart: int, windowStart: int, windowEnd: int, m: int)
    requires windowStart <= Midnight(m) <= windowEnd + 1
    ensures Occurrences(rules, dtstart, windowStart, windowEnd)
            == Occurrences(rules, dtstart, windowStart, Midnight(m) - 1)
               + Occurrences(rules, dtstart, Midnight(m), windowEnd)
  {
    var copies := CopiesOf(ScheduleOf(rules, dtstart));
    match HardEnd(rules, windowEnd) {
      case InvalidDate =>
      case Date(end) =>
        SplitDays(copies, windowStart, end, m);
        assert HardEnd(rules, Midnight(m) - 1) == Date(Min(end, Midnight(m) - 1));
    }
  }

  /**
   Expanding [windowStart, windowEnd] equals expanding up to a midnight and then from it, whenever
   the limit cuts nothing off: the grid hangs on DTSTART, never on the window.
   */
  lemma WindowSplit(rules: RecurringRules, dtstart: int, windowStart: int, windowEnd: int, m: int, maxResults: int)
    requires windowStart <= Midnight(m) <= windowEnd + 1
    requires |Occurrences(rules, dtstart, windowStart, windowEnd)| <= Max(1, maxResults)
    ensures Expanded(rules, dtstart, windowStart, windowEnd, maxResults)
            == Expanded(rules, dtstart, windowStart, Midnight(m) - 1, maxResults)
               + Expanded(rules, dtstart, Midnight(m), windowEnd, maxResults)
  {
    OccurrencesSplit(rules, dtstart, windowStart, windowEnd, m);
    MidnightsConcat(Occurrences(rules, dtstart, windowStart, Midnight(m) - 1),
                    Occurrences(rules, dtstart, Midnight(m), windowEnd));
  }

  lemma MidnightsConcat(a: seq<int>, b: seq<int>)
    ensures Midnights(a + b) == Midnights(a) + Midnights(b)
  {
  }

  // ---------------------------------------------------------------- The next occurrence

  /** The least listed day of [lo, hi). */
  function FirstListed(copies: int -> nat, lo: int, hi: int): (r: Option<int>)
    ensures r.Some? ==> lo <= r.value < hi && copies(r.value) > 0 && forall d :: lo <= d < r.value ==> copies(d) == 0
    ensures r.None? ==> forall d :: lo <= d < hi ==> copies(d) == 0
    decreases hi - lo
  {
    if lo >= hi then None
    else if copies(lo) > 0 then Some(lo)
    else FirstListed(copies, lo + 1, hi)
  }

  lemma {:induction false} ListedHead(copies: int -> nat, lo: int, hi: int)
    ensures FirstListed(copies, lo, hi)
            == if Listed(copies, lo, hi) == [] then None else Some(Listed(copies, lo, hi)[0])
    decreases hi - lo
  {
    if lo < hi && copies(lo) == 0 {
      ListedHead(copies, lo + 1, hi);
    }
  }

  function NextOf(rules: RecurringRules, dtstart: int, fromUTC: int, lookaheadDays: int): Option<int> {
    var start := StartOfUTCDay(fromUTC);
    var days := Occurrences(rules, dtstart, start, AddDaysUTC(start, lookaheadDays));
    FirstMidnight(days)
  }

  function FirstMidnight(days: seq<int>): Option<int> {
    if days == [] then None else Some(Midnight(days[0]))
  }

  method NextOccurrenceUTC(rules: RecurringRules, dtstart: int, fromUTC: int, lookaheadDays: int := 365)
    returns (next: Option<int>)
    ensures next == NextOf(rules, dtstart, fromUTC, lookaheadDays)
  {
    var winStart := StartOfUTCDay(fromUTC);
    var winEnd := AddDaysUTC(winStart, lookaheadDays);
    var occ, _ := ExpandWindowUTC(rules, dtstart, winStart, winEnd, 1);
    next := if |occ| > 0 then Some(occ[0]) else None;
  }

  /** A day on which the rule has an occurrence that UNTIL still admits. */
  predicate Occurs(rules: RecurringRules, dtstart: int, d: int) {
    Copies(ScheduleOf(rules, dtstart), d) > 0 && (rules.until.None? || AtOrBefore(Midnight(d), rules.until.value))
  }

  /** The exclusive end of the days up to `last`, under an optional cap. */
  function EndDay(cap: Option<int>, last: int): int {
    match cap
    case None => last + 1
    case Some(c) => Min(last + 1, c)
  }

  /** UNTIL as a cap on days, for windows that start on `from` or later; an invalid UNTIL admits none. */
  function CapOf(rules: RecurringRules, from: int): Option<int> {
    match rules.until
    case None => None
    case Some(InvalidDate) => Some(from)
    case Some(Date(until)) => Some(Day(until) + 1)
  }

  lemma DayMin(a: int, b: int)
    ensures Day(Min(a, b)) == Min(Day(a), Day(b))
  {
    if a <= b { DayMonotone(a, b); } else { DayMonotone(b, a); }
  }

  lemma OccurrencesListed(rules: RecurringRules, dtstart: int, from: int, p: int, windowEnd: int)
    requires from <= p
    ensures Occurrences(rules, dtstart, Midnight(p), windowEnd)
            == Listed(CopiesOf(ScheduleOf(rules, dtstart)), p, EndDay(CapOf(rules, from), Day(windowEnd)))
  {
    LastInstant(p);
    match HardEnd(rules, windowEnd) {
      case InvalidDate =>
      case Date(end) =>
        MidnightBound(p, end);
        if rules.until.Some? {
          DayMin(windowEnd, rules.until.value.ms);
        }
    }
  }

  lemma NextWindow(rules: RecurringRules, dtstart: int, p: int, lookaheadDays: int)
    ensures NextOf(rules, dtstart, Midnight(p), lookaheadDays)
            == FirstMidnight(Occurrences(rules, dtstart, Midnight(p), Midnight(p + lookaheadDays)))
  {
    LastInstant(p);
  }

  lemma NextListed(rules: RecurringRules, dtstart: int, from: int, p: int, lookaheadDays: int)
    requires from <= p
    ensures NextOf(rules, dtstart, Midnight(p), lookaheadDays)
            == match FirstListed(CopiesOf(ScheduleOf(rules, dtstart)), p, EndDay(CapOf(rules, from), p + lookaheadDays))
               case None => None
               case Some(d) => Some(Midnight(d))
  {
    NextWindow(rules, dtstart, p, lookaheadDays);
    LastInstant(p + lookaheadDays);
    OccurrencesListed(rules, dtstart, from, p, Midnight(p + lookaheadDays));
    ListedHead(CopiesOf(ScheduleOf(rules, dtstart)), p, EndDay(CapOf(rules, from), p + lookaheadDays));
  }

  /** `nextOccurrenceUTC` returns the least day in the lookahead with an occurrence, and null iff there is none. */
  lemma NextIsLeast(rules: RecurringRules, dtstart: int, fromUTC: int, lookaheadDays: int)
    ensures var next, from := NextOf(rules, dtstart, fromUTC, lookaheadDays), Day(fromUTC);
            match next
            case None => forall d :: from <= d <= from + lookaheadDays ==> !Occurs(rules, dtstart, d)
            case Some(t) =>
              && t == Midnight(Day(t)) && from <= Day(t) <= from + lookaheadDays && Occurs(rules, dtstart, Day(t))
              && forall d :: from <= d < Day(t) ==> !Occurs(rules, dtstart, d)
  {
    var from := Day(fromUTC);
    var copies, end := CopiesOf(ScheduleOf(rules, dtstart)), EndDay(CapOf(rules, from), from + lookaheadDays);
    NextListed(rules, dtstart, from, from, lookaheadDays);
    assert NextOf(rules, dtstart, fromUTC, lookaheadDays) == NextOf(rules, dtstart, Midnight(from), lookaheadDays) by {
      LastInstant(from);
    }
    forall d | from <= d <= from + lookaheadDays
      ensures Occurs(rules, dtstart, d) <==> d < end && copies(d) > 0
    {
      if rules.until.Some? && rules.until.value.Date? {
        MidnightBound(d, rules.until.value.ms);
      }
    }
    var first := FirstListed(copies, from, end);
    if first.Some? {
      LastInstant(first.value);
    }
  }

  // ---------------------------------------------------------------- Walking from hit to hit

  /** Every listed day of [lo, hi) once. */
  function DistinctDays(copies: int -> nat, lo: int, hi: int): seq<int>
    decreases hi - lo
  {
    if lo >= hi then []
    else (if copies(lo) > 0 then [lo] else []) + DistinctDays(copies, lo + 1, hi)
  }

  /** From day `p` on, go to the next day, then on from the day after it, until past `last`. */
  function Walk(next: int -> Option<int>, p: int, last: int): seq<int>
    decreases last + 1 - p
  {
    match next(p)
    case None => []
    case Some(d) => if p <= d <= last then [d] + Walk(next, d + 1, last) else []
  }

  /** `nextOccurrenceUTC` as a step between days. */
  function NextDay(rules: RecurringRules, dtstart: int, lookaheadDays: int): int -> Option<int> {
    p => match NextOf(rules, dtstart, Midnight(p), lookaheadDays) case None => None case Some(t) => Some(Day(t))
  }

  /** The least listed day within the lookahead, under a cap. */
  function NearDay(copies: int -> nat, cap: Option<int>, lookaheadDays: int): int -> Option<int> {
    p => FirstListed(copies, p, EndDay(cap, p + lookaheadDays))
  }

  /** No stretch from `start`, or from the day after one listed day, to the next is longer than `gap` days. */
  predicate GapsWithin(start: int, days: seq<int>, gap: int) {
    (days != [] ==> days[0] <= start + gap) && forall i :: 0 <= i < |days| - 1 ==> days[i + 1] <= days[i] + 1 + gap
  }

  lemma GapsWithinTail(start: int, days: seq<int>, gap: int)
    requires days != []
    ensures GapsWithin(start, days, gap) <==> days[0] <= start + gap && GapsWithin(days[0] + 1, days[1..], gap)
  {
    if GapsWithin(days[0] + 1, days[1..], gap) {
      forall i | 0 <= i < |days| - 1
        ensures days[i + 1] <= days[i] + 1 + gap
      {
        if i > 0 {
          assert days[1..][i] <= days[1..][i - 1] + 1 + gap;
        }
      }
    }
  }

  lemma {:induction false} DistinctFrom(copies: int -> nat, lo: int, hi: int)
    ensures match FirstListed(copies, lo, hi)
            case None => DistinctDays(copies, lo, hi) == []
            case Some(d) => DistinctDays(copies, lo, hi) == [d] + DistinctDays(copies, d + 1, hi)
    decreases hi - lo
  {
    if lo < hi && copies(lo) == 0 {
      DistinctFrom(copies, lo + 1, hi);
    }
  }

  lemma FirstListedAgree(copies: int -> nat, lo: int, hi: int, hi': int)
    ensures var near, far := FirstListed(copies, lo, hi), FirstListed(copies, lo, hi');
            && (near.Some? && near.value < hi' ==> far == near)
            && (far.Some? && far.value < hi ==> near == far)
  {
    var near, far := FirstListed(copies, lo, hi), FirstListed(copies, lo, hi');
    if near.Some? && near.value < hi' {
      assert copies(near.value) > 0;
    }
    if far.Some? && far.value < hi {
      assert copies(far.value) > 0;
    }
  }

  lemma ConsStep(start: int, d: int, walked: seq<int>, rest: seq<int>, gap: int)
    requires d <= start + gap
    requires walked == rest <==> GapsWithin(d + 1, rest, gap)
    ensures [d] + walked == [d] + rest <==> GapsWithin(start, [d] + rest, gap)
  {
    assert ([d] + walked)[1..] == walked && ([d] + rest)[1..] == rest;
    GapsWithinTail(start, [d] + rest, gap);
  }

  /** The next day found within the gap is the next listed one, or there is none in the window. */
  lemma NearIsFar(copies: int -> nat, cap: Option<int>, p: int, last: int, gap: int)
    ensures var near := FirstListed(copies, p, EndDay(cap, p + gap));
            var far := FirstListed(copies, p, EndDay(cap, last));
            && (near.Some? && near.value <= last ==> far == near)
            && (far.Some? ==> far.value <= last && (near.Some? <==> far.value <= p + gap))
            && (far.Some? && near.Some? ==> near == far)
  {
    FirstListedAgree(copies, p, EndDay(cap, p + gap), EndDay(cap, last));
  }

  lemma WalkCons(next: int -> Option<int>, p: int, last: int, d: int)
    requires next(p) == Some(d) && p <= d <= last
    ensures Walk(next, p, last) == [d] + Walk(next, d + 1, last)
  {
  }

  /** One step of a walk to `d`, given what the walk does from there. */
  lemma WalkOn(copies: int -> nat, cap: Option<int>, p: int, last: int, gap: int, d: int)
    requires FirstListed(copies, p, EndDay(cap, p + gap)) == Some(d) == FirstListed(copies, p, EndDay(cap, last))
    requires p <= d <= last && d <= p + gap
    requires var days := DistinctDays(copies, d + 1, EndDay(cap, last));
             Walk(NearDay(copies, cap, gap), d + 1, last) == days <==> GapsWithin(d + 1, days, gap)
    ensures var days := DistinctDays(copies, p, EndDay(cap, last));
            Walk(NearDay(copies, cap, gap), p, last) == days <==> GapsWithin(p, days, gap)
  {
    var walked := Walk(NearDay(copies, cap, gap), d + 1, last);
    var rest := DistinctDays(copies, d + 1, EndDay(cap, last));
    WalkCons(NearDay(copies, cap, gap), p, last, d);
    DistinctFrom(copies, p, EndDay(cap, last));
    ConsStep(p, d, walked, rest, gap);
  }

  /** A walk that ends: the window holds no listed day, or the next one is too far away. */
  lemma WalkEnds(copies: int -> nat, cap: Option<int>, p: int, last: int, gap: int)
    requires FirstListed(copies, p, EndDay(cap, p + gap)).None? || FirstListed(copies, p, EndDay(cap, last)).None?
    ensures var days := DistinctDays(copies, p, EndDay(cap, last));
            Walk(NearDay(copies, cap, gap), p, last) == days <==> GapsWithin(p, days, gap)
  {
    var near := FirstListed(copies, p, EndDay(cap, p + gap));
    NearIsFar(copies, cap, p, last, gap);
    assert Walk(NearDay(copies, cap, gap), p, last) == [] by {
      assert NearDay(copies, cap, gap)(p) == near;
    }
    DistinctFrom(copies, p, EndDay(cap, last));
  }

  lemma {:induction false} NearWalkRebuilds(copies: int -> nat, cap: Option<int>, p: int, last: int, gap: int)
    ensures var days := DistinctDays(copies, p, EndDay(cap, last));
            Walk(NearDay(copies, cap, gap), p, last) == days <==> GapsWithin(p, days, gap)
    decreases last + 1 - p
  {
    var near := FirstListed(copies, p, EndDay(cap, p + gap));
    var far := FirstListed(copies, p, EndDay(cap, last));
    NearIsFar(copies, cap, p, last, gap);
    if near.Some? && far.Some? {
      NearWalkRebuilds(copies, cap, far.value + 1, last, gap);
      WalkOn(copies, cap, p, last, gap, far.value);
    } else {
      WalkEnds(copies, cap, p, last, gap);
    }
  }

  lemma {:induction false} WalkCongruence(f: int -> Option<int>, g: int -> Option<int>, p: int, last: int)
    requires forall q :: p <= q ==> f(q) == g(q)
    ensures Walk(f, p, last) == Walk(g, p, last)
    decreases last + 1 - p
  {
    if f(p).Some? && p <= f(p).value <= last {
      WalkCongruence(f, g, f(p).value + 1, last);
    }
  }

  lemma {:induction false} DistinctIsListed(copies: int -> nat, lo: int, hi: int)
    requires forall d :: lo <= d < hi ==> copies(d) <= 1
    ensures DistinctDays(copies, lo, hi) == Listed(copies, lo, hi)
    decreases hi - lo
  {
    if lo < hi {
      DistinctIsListed(copies, lo + 1, hi);
    }
  }

  lemma NextIsNear(rules: RecurringRules, dtstart: int, start: int, q: int, lookaheadDays: int)
    requires start <= q
    ensures NextDay(rules, dtstart, lookaheadDays)(q)
            == NearDay(CopiesOf(ScheduleOf(rules, dtstart)), CapOf(rules, start), lookaheadDays)(q)
  {
    var first := FirstListed(CopiesOf(ScheduleOf(rules, dtstart)), q, EndDay(CapOf(rules, start), q + lookaheadDays));
    var next := NextOf(rules, dtstart, Midnight(q), lookaheadDays);
    assert next == match first case None => None case Some(d) => Some(Midnight(d)) by {
      NextListed(rules, dtstart, start, q, lookaheadDays);
    }
    if first.Some? { LastInstant(first.value); }
  }

  /**
   Stepping through a window with `nextOccurrenceUTC` finds exactly the days that occur in it
   if and only if no gap between them exceeds the lookahead.
   */
  lemma WalkRebuildsDays(rules: RecurringRules, dtstart: int, start: int, windowEnd: int, lookaheadDays: int)
    ensures var days := DistinctDays(CopiesOf(ScheduleOf(rules, dtstart)), start,
                                     EndDay(CapOf(rules, start), Day(windowEnd)));
            Walk(NextDay(rules, dtstart, lookaheadDays), start, Day(windowEnd)) == days
            <==> GapsWithin(start, days, lookaheadDays)
  {
    var copies, cap := CopiesOf(ScheduleOf(rules, dtstart)), CapOf(rules, start);
    var next, near := NextDay(rules, dtstart, lookaheadDays), NearDay(copies, cap, lookaheadDays);
    forall q | start <= q
      ensures next(q) == near(q)
    {
      NextIsNear(rules, dtstart, start, q, lookaheadDays);
    }
    WalkCongruence(next, near, start, Day(windowEnd));
    NearWalkRebuilds(copies, cap, start, Day(windowEnd), lookaheadDays);
  }

  /** With no weekday named twice, the walk rebuilds the expansion itself, again exactly when no gap is too long. */
  lemma WalkRebuildsExpansion(rules: RecurringRules, dtstart: int, start: int, windowEnd: int, lookaheadDays: int)
    requires var g := ScheduleOf(rules, dtstart);
             forall i, j :: 0 <= i < j < |g.weekDays| ==> g.weekDays[i] != g.weekDays[j]
    ensures var days := Occurrences(rules, dtstart, Midnight(start), windowEnd);
            Walk(NextDay(rules, dtstart, lookaheadDays), start, Day(windowEnd)) == days
            <==> GapsWithin(start, days, lookaheadDays)
  {
    var g := ScheduleOf(rules, dtstart);
    var end := EndDay(CapOf(rules, start), Day(windowEnd));
    OccurrencesListed(rules, dtstart, start, start, windowEnd);
    forall d | start <= d < end
      ensures CopiesOf(g)(d) <= 1
    {
      NoRepeatsListOnce(g, d);
    }
    DistinctIsListed(CopiesOf(g), start, end);
    WalkRebuildsDays(rules, dtstart, start, windowEnd, lookaheadDays);
  }

  /** Listed days are never repeated when BYDAY names no day twice. */
  lemma NoRepeatsListOnce(g: Schedule, d: int)
    requires forall i, j :: 0 <= i < j < |g.weekDays| ==> g.weekDays[i] != g.weekDays[j]
    ensures Copies(g, d) <= 1
  {
    DistinctCounts(g.weekDays, WeekDay(d));
  }

  lemma {:induction false} DistinctCounts(s: seq<int>, x: int)
    requires forall i, j :: 0 <= i < j < |s| ==> s[i] != s[j]
    ensures multiset(s)[x] <= 1
  {
    if s != [] {
      DropHead(s, x);
      DistinctCounts(s[1..], x);
      if x == s[0] {
        assert x !in s[1..];
      }
    }
  }
}
