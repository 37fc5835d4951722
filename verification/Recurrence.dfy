/**
 Expansion of DAILY and WEEKLY rules over a UTC window (src/event/recurrence.ts).

 `Occurrences` is the plain reading of a rule: look at every day of the window and list it
 as often as the rule asks for it. `ExpandWindowUTC` is the program: an aligned cursor, an
 alignment search and nested week/day loops. Its contract ties the two together.
 */
module Recurrence {
  import opened Wrappers
  import opened Utc
  import opened Sorting

  datatype Frequency = DAILY | WEEKLY | MONTHLY | YEARLY

  datatype RecurringRules = RecurringRules(
    frequency: Frequency,
    interval: Option<int>,
    byday: Option<seq<string>>,
    until: Option<Date>,
    count: Option<int>)

  const ICAL_DAYS: seq<string> := ["SU", "MO", "TU", "WE", "TH", "FR", "SA"]

  // ---------------------------------------------------------------- BYDAY

  function IndexOf(days: seq<string>, d: string): (i: int)
    ensures -1 <= i < |days|
    ensures i >= 0 ==> days[i] == d
    ensures i == -1 ==> d !in days
  {
    if days == [] then -1
    else if days[0] == d then 0
    else
      var i := IndexOf(days[1..], d);
      if i < 0 then -1 else i + 1
  }

  function ValidIndices(byday: seq<string>): seq<int> {
    if byday == [] then []
    else
      var i := IndexOf(ICAL_DAYS, byday[0]);
      (if i >= 0 then [i] else []) + ValidIndices(byday[1..])
  }

  /** The recognised day names as week offsets, ascending; `None` when there are none. */
  function ParseBydayIndices(byday: Option<seq<string>>): Option<seq<int>> {
    if byday.None? || byday.value == [] then None
    else
      var sorted := Sort(ValidIndices(byday.value));
      if |sorted| > 0 then Some(sorted) else None
  }

  /** The weekdays a WEEKLY rule asks for: BYDAY, or DTSTART's own weekday. */
  function WeekDays(rules: RecurringRules, first: int): seq<int> {
    match ParseBydayIndices(rules.byday)
    case Some(indices) => indices
    case None => [WeekDay(first)]
  }

  lemma DayNamesDistinct(j: int, k: int)
    requires 0 <= j < 7 && 0 <= k < 7 && j != k
    ensures ICAL_DAYS[j] != ICAL_DAYS[k]
  {
    assert ICAL_DAYS[j][0] != ICAL_DAYS[k][0] || ICAL_DAYS[j][1] != ICAL_DAYS[k][1];
  }

  lemma {:induction false} ValidIndicesExact(byday: seq<string>, i: int)
    ensures i in ValidIndices(byday) <==> 0 <= i < 7 && ICAL_DAYS[i] in byday
  {
    if byday != [] {
      ValidIndicesExact(byday[1..], i);
      var k := IndexOf(ICAL_DAYS, byday[0]);
      if 0 <= i < 7 && ICAL_DAYS[i] == byday[0] {
        assert ICAL_DAYS[i] in ICAL_DAYS;
        if i != k { DayNamesDistinct(i, k); }
      }
    }
  }

  /** BYDAY survives parsing as its recognised names: nothing lost, nothing invented, repeats kept, ascending. */
  lemma ParseBydayExact(byday: Option<seq<string>>, i: int)
    ensures var r := ParseBydayIndices(byday);
            r.Some? ==> Sorted(r.value) && multiset(r.value) == multiset(ValidIndices(byday.value))
    ensures var r := ParseBydayIndices(byday);
            (r.Some? && i in r.value) <==> (byday.Some? && 0 <= i < 7 && ICAL_DAYS[i] in byday.value)
  {
    if byday.Some? {
      var valid := ValidIndices(byday.value);
      SortSorts(valid);
      ValidIndicesExact(byday.value, i);
      assert i in valid <==> i in multiset(valid);
      assert i in Sort(valid) <==> i in multiset(Sort(valid));
    }
  }

  lemma WeekDaysInWeek(rules: RecurringRules, first: int)
    ensures Sorted(WeekDays(rules, first)) && Bounded(WeekDays(rules, first), 0, 6)
  {
    var days := WeekDays(rules, first);
    ParseBydayExact(rules.byday, 0);
    forall k | 0 <= k < |days|
      ensures 0 <= days[k] <= 6
    {
      ParseBydayExact(rules.byday, days[k]);
      assert days[k] in days;
    }
  }

  // ---------------------------------------------------------------- What a rule means

  type Period = n: int | n >= 1 witness 1

  /** A rule with its defaults filled in: DTSTART's day, the interval in force, the weekdays asked for. */
  datatype Schedule = Schedule(frequency: Frequency, interval: Period, first: int, weekDays: seq<int>) {
    ghost predicate Valid() {
      Sorted(weekDays) && Bounded(weekDays, 0, 6)
    }
  }

  function ScheduleOf(rules: RecurringRules, dtstart: int): Schedule {
    Schedule(rules.frequency, Max(1, rules.interval.GetOr(1)), Day(dtstart), WeekDays(rules, Day(dtstart)))
  }

  /** How often a schedule lists day `d`. */
  function Copies(g: Schedule, d: int): nat {
    if d < g.first then 0
    else match g.frequency
      case DAILY => if OnGrid(d - g.first, g.interval) then 1 else 0
      case WEEKLY => if OnGrid(Week(d) - Week(g.first), g.interval) then multiset(g.weekDays)[WeekDay(d)] else 0
      case _ => 0
  }

  /** `distance` is a whole number of intervals: what `distance % interval === 0` tests (`OnGridIsRemainderZero`). */
  predicate OnGrid(distance: nat, interval: Period) {
    distance == 0 || (distance >= interval && OnGrid(distance - interval, interval))
  }

  function Repeat(x: int, n: nat): seq<int> {
    seq(n, _ => x)
  }

  /** `Copies` of one schedule, as a function of the day. */
  function CopiesOf(g: Schedule): int -> nat {
    d => Copies(g, d)
  }

  /** Every day of [lo, hi), each as often as `copies` lists it. */
  function Listed(copies: int -> nat, lo: int, hi: int): seq<int>
    decreases hi - lo
  {
    if lo >= hi then [] else Repeat(lo, copies(lo)) + Listed(copies, lo + 1, hi)
  }

  function HardEnd(rules: RecurringRules, windowEnd: int): Date {
    match rules.until
    case None => Date(windowEnd)
    case Some(until) => MinDate(Date(windowEnd), until)
  }

  /** The listed days from `windowStart`'s to the last one whose midnight is not after `hardEnd`. */
  function WindowDays(copies: int -> nat, windowStart: int, hardEnd: Date): seq<int> {
    if hardEnd.InvalidDate? || hardEnd.ms < windowStart then []
    else Listed(copies, Day(windowStart), Day(hardEnd.ms) + 1)
  }

  /** All days that occur in the window, before `maxResults` truncates them. */
  function Occurrences(rules: RecurringRules, dtstart: int, windowStart: int, windowEnd: int): seq<int> {
    WindowDays(CopiesOf(ScheduleOf(rules, dtstart)), windowStart, HardEnd(rules, windowEnd))
  }

  function Midnights(days: seq<int>): seq<int> {
    seq(|days|, i requires 0 <= i < |days| => Midnight(days[i]))
  }

  lemma MidnightsAppend(days: seq<int>, d: int)
    ensures Midnights(days + [d]) == Midnights(days) + [Midnight(d)]
  {
  }

  function Truncated(s: seq<int>, maxResults: int): seq<int> {
    if |s| <= Max(1, maxResults) then s else s[..Max(1, maxResults)]
  }

  /** What a call returns: the first `max(1, maxResults)` occurrences. */
  function Expanded(rules: RecurringRules, dtstart: int, windowStart: int, windowEnd: int, maxResults: int): seq<int> {
    Truncated(Midnights(Occurrences(rules, dtstart, windowStart, windowEnd)), maxResults)
  }

  // ---------------------------------------------------------------- Facts about Listed

  lemma {:induction false} ListedSplit(copies: int -> nat, lo: int, m: int, hi: int)
    requires lo <= m <= hi
    ensures Listed(copies, lo, hi) == Listed(copies, lo, m) + Listed(copies, m, hi)
    decreases m - lo
  {
    if lo < m {
      ListedSplit(copies, lo + 1, m, hi);
    }
  }

  lemma {:induction false} ListedEmpty(copies: int -> nat, lo: int, hi: int)
    requires forall d :: lo <= d < hi ==> copies(d) == 0
    ensures Listed(copies, lo, hi) == []
    decreases hi - lo
  {
    if lo < hi {
      ListedEmpty(copies, lo + 1, hi);
    }
  }

  lemma {:induction false} RepeatCount(x: int, n: nat, y: int)
    ensures multiset(Repeat(x, n))[y] == if x == y then n else 0
  {
    if n > 0 {
      assert Repeat(x, n) == [x] + Repeat(x, n - 1);
      RepeatCount(x, n - 1, y);
    }
  }

  /** `Listed` holds each day of the range exactly as often as the rule says, and nothing else. */
  lemma {:induction false} ListedCount(copies: int -> nat, lo: int, hi: int, d: int)
    ensures multiset(Listed(copies, lo, hi))[d] == if lo <= d < hi then copies(d) else 0
    decreases hi - lo
  {
    if lo < hi {
      RepeatCount(lo, copies(lo), d);
      ListedCount(copies, lo + 1, hi, d);
      CountConcat(Repeat(lo, copies(lo)), Listed(copies, lo + 1, hi), d);
    }
  }

  lemma {:induction false} ListedSorted(copies: int -> nat, lo: int, hi: int)
    requires lo <= hi
    ensures Sorted(Listed(copies, lo, hi)) && Bounded(Listed(copies, lo, hi), lo, hi)
    decreases hi - lo
  {
    if lo < hi {
      ListedSorted(copies, lo + 1, hi);
      SortedConcat(Repeat(lo, copies(lo)), Listed(copies, lo + 1, hi), lo, lo + 1, hi);
    }
  }

  lemma WindowDaysSorted(copies: int -> nat, windowStart: int, hardEnd: Date)
    ensures Sorted(WindowDays(copies, windowStart, hardEnd))
  {
    if hardEnd.Date? && hardEnd.ms >= windowStart {
      DayMonotone(windowStart, hardEnd.ms);
      ListedSorted(copies, Day(windowStart), Day(hardEnd.ms) + 1);
    }
  }

  lemma WindowDaysCount(copies: int -> nat, windowStart: int, hardEnd: Date, d: int)
    ensures multiset(WindowDays(copies, windowStart, hardEnd))[d] ==
            if Day(windowStart) <= d && AtOrBefore(Midnight(d), hardEnd) && AtOrBefore(windowStart, hardEnd)
            then copies(d) else 0
  {
    if hardEnd.Date? && hardEnd.ms >= windowStart {
      MidnightBound(d, hardEnd.ms);
      ListedCount(copies, Day(windowStart), Day(hardEnd.ms) + 1, d);
    }
  }

  /** The occurrences, said without recursion: ascending, and each day with its exact multiplicity. */
  lemma OccurrencesExact(rules: RecurringRules, dtstart: int, windowStart: int, windowEnd: int, d: int)
    ensures var days, hardEnd := Occurrences(rules, dtstart, windowStart, windowEnd), HardEnd(rules, windowEnd);
            && Sorted(days)
            && multiset(days)[d] ==
               if Day(windowStart) <= d && AtOrBefore(Midnight(d), hardEnd) && AtOrBefore(windowStart, hardEnd)
               then Copies(ScheduleOf(rules, dtstart), d) else 0
  {
    WindowDaysSorted(CopiesOf(ScheduleOf(rules, dtstart)), windowStart, HardEnd(rules, windowEnd));
    WindowDaysCount(CopiesOf(ScheduleOf(rules, dtstart)), windowStart, HardEnd(rules, windowEnd), d);
  }

  // ---------------------------------------------------------------- The interval grid

  lemma {:induction false} OnGridIsRemainderZero(a: nat, n: int)
    requires n >= 1
    ensures OnGrid(a, n) <==> a % n == 0
  {
    if a >= n {
      OnGridIsRemainderZero(a - n, n);
      RemainderAfterStep(a, n);
    } else {
      SmallRemainder(a, n);
    }
  }

  lemma SmallRemainder(a: nat, n: int)
    requires 0 <= a < n
    ensures a % n == a
  {
  }

  lemma RemainderAfterStep(a: int, n: int)
    requires n >= 1
    ensures a % n == (a - n) % n
  {
    var k := a / n - 1 - (a - n) / n;
    assert n * k == (a - n) % n - a % n;
    assert k < 1 by {
      if k >= 1 { AtLeast(n, k); }
    }
    assert k > -1 by {
      if k <= -1 { AtLeast(n, -k); }
    }
  }

  lemma AtLeast(n: int, k: int)
    requires n >= 1 && k >= 1
    ensures n * k >= n
  {
  }

  /** Between two neighbouring grid points there is none. */
  lemma {:induction false} GridStep(a: nat, k: nat, n: int)
    requires n >= 1 && OnGrid(a, n) && k < n
    ensures OnGrid(a + n, n) && (OnGrid(a + k, n) <==> k == 0)
  {
    if a != 0 {
      GridStep(a - n, k, n);
    }
  }

  /** The grid point at or below `a` is `a % n` away. */
  lemma {:induction false} GridBelow(a: nat, n: int)
    requires n >= 1
    ensures 0 <= a % n < n && a % n <= a && OnGrid(a - a % n, n) && OnGrid(a - a % n + n, n)
  {
    if a >= n {
      GridBelow(a - n, n);
      RemainderAfterStep(a, n);
    } else {
      SmallRemainder(a, n);
    }
  }

  // ---------------------------------------------------------------- One week

  /** What the inner loop emits for the week starting on `sunday`, limited to days in [lo, hi). */
  function WeekPart(days: seq<int>, sunday: int, lo: int, hi: int): seq<int> {
    if days == [] then []
    else
      var d := sunday + days[|days| - 1];
      WeekPart(days[..|days| - 1], sunday, lo, hi) + if lo <= d < hi then [d] else []
  }

  lemma {:induction false} WeekPartPrefix(days: seq<int>, j: nat, sunday: int, lo: int, hi: int)
    requires j <= |days|
    ensures WeekPart(days[..j], sunday, lo, hi) <= WeekPart(days, sunday, lo, hi)
    decreases |days|
  {
    if j == |days| {
      assert days[..j] == days;
    } else {
      WeekPartPrefix(days[..|days| - 1], j, sunday, lo, hi);
      assert days[..|days| - 1][..j] == days[..j];
    }
  }

  lemma WeekPartStep(days: seq<int>, j: nat, sunday: int, lo: int, hi: int)
    requires j < |days|
    ensures var d := sunday + days[j];
            WeekPart(days[..j + 1], sunday, lo, hi)
            == WeekPart(days[..j], sunday, lo, hi) + if lo <= d < hi then [d] else []
  {
    assert days[..j + 1][..j] == days[..j];
  }

  lemma {:induction false} WeekPartCount(days: seq<int>, sunday: int, lo: int, hi: int, d: int)
    ensures multiset(WeekPart(days, sunday, lo, hi))[d] == if lo <= d < hi then multiset(days)[d - sunday] else 0
  {
    if days != [] {
      var rest, last := days[..|days| - 1], days[|days| - 1];
      WeekPartCount(rest, sunday, lo, hi, d);
      CountSnoc(rest, last, d - sunday);
      assert rest + [last] == days;
      CountSnoc(WeekPart(rest, sunday, lo, hi), sunday + last, d);
    }
  }

  lemma {:induction false} WeekPartSorted(days: seq<int>, sunday: int, lo: int, hi: int, top: int)
    requires Sorted(days) && Bounded(days, 0, top)
    ensures Sorted(WeekPart(days, sunday, lo, hi)) && Bounded(WeekPart(days, sunday, lo, hi), sunday, sunday + top)
  {
    if days != [] {
      var last := days[|days| - 1];
      var d := sunday + last;
      WeekPartSorted(days[..|days| - 1], sunday, lo, hi, last);
      SortedConcat(WeekPart(days[..|days| - 1], sunday, lo, hi), if lo <= d < hi then [d] else [],
                   sunday, d, sunday + top);
    }
  }

  /** The days of [lo, hi) that fall in the week starting on `sunday` are those of [from, to). */
  predicate WeekWithin(sunday: int, lo: int, hi: int, from: int, to: int) {
    from == Max(lo, sunday) && to == Min(hi, sunday + 7) && from <= to
  }

  lemma AlignedWeekCount(g: Schedule, week: int, lo: int, hi: int, from: int, to: int, d: int)
    requires g.Valid() && g.frequency == WEEKLY && g.first <= lo && WeekWithin(SundayOfWeek(week), lo, hi, from, to)
    requires week >= Week(g.first) && OnGrid(week - Week(g.first), g.interval)
    ensures multiset(WeekPart(g.weekDays, SundayOfWeek(week), lo, hi))[d] ==
            if from <= d < to then Copies(g, d) else 0
  {
    var sunday, days := SundayOfWeek(week), g.weekDays;
    WeekPartCount(days, sunday, lo, hi, d);
    WeekOfDay(d, week);
    if sunday <= d < sunday + 7 {
      CopiesInWeek(g, week, d);
    } else {
      CountOutside(days, d - sunday);
    }
  }

  lemma CopiesInWeek(g: Schedule, week: int, d: int)
    requires g.frequency == WEEKLY && Week(d) == week
    requires week >= Week(g.first) && OnGrid(week - Week(g.first), g.interval)
    ensures Copies(g, d) == if d < g.first then 0 else multiset(g.weekDays)[WeekDay(d)]
  {
  }

  lemma CountOutside(days: seq<int>, x: int)
    requires Bounded(days, 0, 6) && !(0 <= x <= 6)
    ensures multiset(days)[x] == 0
  {
    assert x !in days;
  }

  /** The inner loop over BYDAY lists an aligned week exactly as the day-by-day reading does. */
  lemma AlignedWeek(g: Schedule, week: int, lo: int, hi: int, from: int, to: int)
    requires g.Valid() && g.frequency == WEEKLY && g.first <= lo && WeekWithin(SundayOfWeek(week), lo, hi, from, to)
    requires week >= Week(g.first) && OnGrid(week - Week(g.first), g.interval)
    ensures WeekPart(g.weekDays, SundayOfWeek(week), lo, hi) == Listed(CopiesOf(g), from, to)
  {
    var copies := CopiesOf(g);
    var sunday, days := SundayOfWeek(week), g.weekDays;
    var emitted, expected := WeekPart(days, sunday, lo, hi), Listed(copies, from, to);
    forall d
      ensures multiset(emitted)[d] == multiset(expected)[d]
    {
      AlignedWeekCount(g, week, lo, hi, from, to, d);
      ListedCount(copies, from, to, d);
    }
    assert Sorted(emitted) by {
      WeekPartSorted(days, sunday, lo, hi, 6);
    }
    ListedSorted(copies, from, to);
    SortedUnique(emitted, expected);
  }

  // ---------------------------------------------------------------- Steps of the loops

  lemma FromDtstart(g: Schedule, lo: int, hi: int)
    ensures Listed(CopiesOf(g), lo, hi) == Listed(CopiesOf(g), Max(lo, g.first), hi)
  {
    var m := Min(Max(lo, g.first), hi);
    if lo < m {
      ListedSplit(CopiesOf(g), lo, m, hi);
      ListedEmpty(CopiesOf(g), lo, m);
    }
  }

  lemma EmptyPrefix(copies: int -> nat, lo: int, m: int, hi: int)
    requires m <= hi && Listed(copies, lo, hi) == []
    ensures Listed(copies, lo, m) == []
  {
    if lo <= m {
      ListedSplit(copies, lo, m, hi);
    }
  }

  /** A run of days without occurrences can be stepped over. */
  lemma StepOver(copies: int -> nat, lo: int, m: int, n: int)
    requires m <= n
    requires forall d :: m <= d < n ==> copies(d) == 0
    ensures Listed(copies, lo, n) == Listed(copies, lo, m)
  {
    if lo <= m {
      ListedSplit(copies, lo, m, n);
      ListedEmpty(copies, m, n);
    } else {
      ListedEmpty(copies, lo, n);
    }
  }

  lemma ListedJoin(copies: int -> nat, lo: int, m: int, n: int, hi: int)
    requires lo <= n && m <= n <= hi
    ensures Listed(copies, lo, m) + Listed(copies, Max(lo, m), n) == Listed(copies, lo, n) <= Listed(copies, lo, hi)
  {
    if lo <= m {
      ListedSplit(copies, lo, m, n);
    }
    ListedSplit(copies, lo, n, hi);
  }

  /** Rounding `lo` up to the grid skips no DAILY occurrence. */
  lemma DailyGap(g: Schedule, lo: int)
    requires g.frequency == DAILY && g.first <= lo && !OnGrid(lo - g.first, g.interval)
    ensures var next := lo + g.interval - (lo - g.first) % g.interval;
            OnGrid(next - g.first, g.interval) && Listed(CopiesOf(g), lo, next) == []
  {
    var n := g.interval;
    var r := (lo - g.first) % n;
    GridBelow(lo - g.first, n);
    forall d | lo <= d < lo + n - r
      ensures Copies(g, d) == 0
    {
      GridStep(lo - g.first - r, d - lo + r, n);
      assert lo - g.first - r + (d - lo + r) == d - g.first;
    }
    ListedEmpty(CopiesOf(g), lo, lo + n - r);
  }

  /** One round of the daily loop: emit the cursor's day, then nothing before the next grid point. */
  lemma DailyRound(g: Schedule, c: int, distance: nat, lo: int, hi: int, listed: seq<int>)
    requires g.frequency == DAILY && g.first <= lo <= c < hi
    requires distance == c - g.first && OnGrid(distance, g.interval) && listed == Listed(CopiesOf(g), lo, c)
    ensures OnGrid(distance + g.interval, g.interval)
    ensures listed + [c] == Listed(CopiesOf(g), lo, Min(hi, c + g.interval))
    ensures listed + [c] <= Listed(CopiesOf(g), lo, hi)
  {
    var copies, n := CopiesOf(g), g.interval;
    assert copies(c) == 1;
    ListedSplit(copies, lo, c, c + 1);
    DailyQuiet(g, c, distance);
    StepOver(copies, lo, c + 1, Min(hi, c + n));
    ListedSplit(copies, lo, c + 1, hi);
  }

  lemma DailyQuiet(g: Schedule, c: int, distance: nat)
    requires g.frequency == DAILY && distance == c - g.first && OnGrid(distance, g.interval)
    ensures OnGrid(distance + g.interval, g.interval)
    ensures forall d :: c + 1 <= d < c + g.interval ==> CopiesOf(g)(d) == 0
  {
    GridStep(distance, 0, g.interval);
    forall d | c + 1 <= d < c + g.interval
      ensures CopiesOf(g)(d) == 0
    {
      GridStep(distance, d - c, g.interval);
      assert distance + (d - c) == d - g.first;
    }
  }

  /** `sunday` starts the week `distance` weeks after DTSTART's week. */
  ghost predicate WeekAt(g: Schedule, sunday: int, distance: nat) {
    sunday == SundayOfWeek(Week(g.first) + distance)
  }

  lemma WeekContaining(g: Schedule, d: int) returns (sunday: int, distance: nat)
    requires g.first <= d
    ensures WeekAt(g, sunday, distance) && sunday <= d < sunday + 7 && sunday == SundayOfWeek(Week(d))
  {
    WeekOfDay(d, Week(d));
    sunday, distance := SundayOfWeek(Week(d)), Week(d) - Week(g.first);
  }

  lemma UnalignedWeek(g: Schedule, sunday: int, distance: nat, lo: int)
    requires g.frequency == WEEKLY && g.first <= lo < sunday + 7 && WeekAt(g, sunday, distance)
    requires !OnGrid(distance, g.interval)
    requires Listed(CopiesOf(g), lo, sunday) == []
    ensures Listed(CopiesOf(g), lo, sunday + 7) == []
  {
    var copies := CopiesOf(g);
    forall d | sunday <= d < sunday + 7
      ensures copies(d) == 0
    {
      WeekOfDay(d, Week(g.first) + distance);
    }
    StepOver(copies, lo, sunday, sunday + 7);
  }

  /** From an aligned week the next aligned one is `interval` weeks on; between them there is nothing. */
  lemma SkipToNextWeek(g: Schedule, sunday: int, distance: nat, lo: int, hi: int, n: int)
    requires g.frequency == WEEKLY && g.first <= lo < sunday + 7 && WeekAt(g, sunday, distance)
    requires n == g.interval && OnGrid(distance, n)
    ensures OnGrid(distance + n, n) && WeekAt(g, sunday + 7 * n, distance + n)
    ensures Listed(CopiesOf(g), lo, Min(hi, sunday + 7 * n)) == Listed(CopiesOf(g), lo, Min(hi, sunday + 7))
  {
    var copies := CopiesOf(g);
    GridStep(distance, 0, n);
    forall d | sunday + 7 <= d < sunday + 7 * n
      ensures copies(d) == 0
    {
      OffGridWeek(g, sunday, distance, d);
    }
    StepOver(copies, lo, Min(hi, sunday + 7), Min(hi, sunday + 7 * n));
  }

  lemma OffGridWeek(g: Schedule, sunday: int, distance: nat, d: int)
    requires g.frequency == WEEKLY && WeekAt(g, sunday, distance) && OnGrid(distance, g.interval)
    requires sunday + 7 <= d < sunday + 7 * g.interval
    ensures Copies(g, d) == 0
  {
    var k := Week(d) - Week(g.first) - distance;
    WeekOfDay(d, Week(d));
    GridStep(distance, k, g.interval);
    assert distance + k == Week(d) - Week(g.first);
  }

  /** Where the alignment search stops: the least grid point from `distance` on is less than `n` away. */
  lemma NextGridPoint(distance: nat, n: int) returns (goal: nat)
    requires n >= 1
    ensures distance <= goal < distance + n && OnGrid(goal, n)
  {
    GridBelow(distance, n);
    goal := if OnGrid(distance, n) then distance else distance - distance % n + n;
  }

  /** Appending one week's emissions extends the list to the end of that week. */
  lemma WeekExtends(g: Schedule, sunday: int, distance: nat, lo: int, hi: int)
    requires g.Valid() && g.frequency == WEEKLY && g.first <= lo < sunday + 7 && sunday < hi && lo <= hi
    requires WeekAt(g, sunday, distance) && OnGrid(distance, g.interval)
    ensures var copies := CopiesOf(g);
            var part := WeekPart(g.weekDays, sunday, lo, hi);
            && Listed(copies, lo, sunday) + part == Listed(copies, lo, Min(hi, sunday + 7))
            && Listed(copies, lo, sunday) + part <= Listed(copies, lo, hi)
  {
    var copies, to := CopiesOf(g), Min(hi, sunday + 7);
    assert WeekPart(g.weekDays, sunday, lo, hi) == Listed(copies, Max(lo, sunday), to) by {
      AlignedWeek(g, Week(g.first) + distance, lo, hi, Max(lo, sunday), to);
    }
    ListedJoin(copies, lo, sunday, to, hi);
  }

  /**
   One round of the week loop, from any aligned week: this week's emissions, then nothing before
   the next aligned week.
   */
  ghost predicate WeekRounds(g: Schedule, copies: int -> nat, lo: int, hi: int) {
    forall sunday: int, distance: nat {:trigger WeekAt(g, sunday, distance)} ::
      WeekAt(g, sunday, distance) && OnGrid(distance, g.interval) && lo < sunday + 7 && sunday < hi ==>
        var extended := Listed(copies, lo, sunday) + WeekPart(g.weekDays, sunday, lo, hi);
        extended == Listed(copies, lo, Min(hi, sunday + 7 * g.interval)) && extended <= Listed(copies, lo, hi)
  }

  lemma WeekRoundsHold(g: Schedule, lo: int, hi: int)
    requires g.Valid() && g.frequency == WEEKLY && g.first <= lo <= hi
    ensures WeekRounds(g, CopiesOf(g), lo, hi)
  {
    forall sunday: int, distance: nat {:trigger WeekAt(g, sunday, distance)} |
      WeekAt(g, sunday, distance) && OnGrid(distance, g.interval) && lo < sunday + 7 && sunday < hi
      ensures var extended := Listed(CopiesOf(g), lo, sunday) + WeekPart(g.weekDays, sunday, lo, hi);
              extended == Listed(CopiesOf(g), lo, Min(hi, sunday + 7 * g.interval))
                  && extended <= Listed(CopiesOf(g), lo, hi)
    {
      WeekExtends(g, sunday, distance, lo, hi);
      SkipToNextWeek(g, sunday, distance, lo, hi, g.interval);
    }
  }

  /** The week loop stands at the aligned Sunday `sunday`. */
  ghost predicate AtWeek(g: Schedule, weekStart: int, sunday: int, distance: int, lo: int) {
    && weekStart == Midnight(sunday) && lo < sunday + 7
    && distance >= 0 && WeekAt(g, sunday, distance) && OnGrid(distance, g.interval)
  }

  /** The days listed so far, none beyond the limit. */
  ghost predicate Emitted(copies: int -> nat, lo: int, to: int, list: seq<int>, listed: seq<int>, maxResults: int) {
    list == Midnights(listed) && listed == Listed(copies, lo, to) && (list == [] || |list| < maxResults)
  }

  lemma NextAligned(g: Schedule, weekStart: int, sunday: int, distance: int, lo: int)
    requires AtWeek(g, weekStart, sunday, distance, lo)
    ensures AtWeek(g, AddDaysUTC(weekStart, 7 * g.interval), sunday + 7 * g.interval, distance + g.interval, lo)
  {
    GridStep(distance, 0, g.interval);
  }

  lemma WeekIsDue(hardEnd: Date, weekStart: int, sunday: int, lo: int, hi: int)
    requires DayLimit(hardEnd, lo, hi) && weekStart == Midnight(sunday) && AtOrBefore(weekStart, hardEnd)
    ensures sunday < hi
  {
    if sunday >= lo { assert AtOrBefore(Midnight(sunday), hardEnd) <==> sunday < hi; }
  }

  /** Past the last week everything is listed. */
  lemma WeeksDone(copies: int -> nat, hardEnd: Date, weekStart: int, sunday: int, lo: int, hi: int,
                  list: seq<int>, listed: seq<int>, maxResults: int)
    requires DayLimit(hardEnd, lo, hi) && weekStart == Midnight(sunday) && !AtOrBefore(weekStart, hardEnd)
    requires Emitted(copies, lo, Min(hi, sunday), list, listed, maxResults)
    ensures list == Truncated(Midnights(Listed(copies, lo, hi)), maxResults)
  {
    if sunday >= lo {
      assert AtOrBefore(Midnight(sunday), hardEnd) <==> sunday < hi;
    } else {
      assert lo < hi ==> AtOrBefore(Midnight(lo), hardEnd);
    }
    Untruncated(listed, maxResults);
  }

  lemma PrefixTruncates(s: seq<int>, longer: seq<int>, all: seq<int>, maxResults: int)
    requires s <= longer && longer <= all && |s| == Max(1, maxResults)
    ensures Midnights(s) == Truncated(Midnights(all), maxResults)
  {
    assert s == all[..|s|];
  }

  lemma Untruncated(all: seq<int>, maxResults: int)
    requires all == [] || |all| < maxResults
    ensures Midnights(all) == Truncated(Midnights(all), maxResults)
  {
  }

  // ---------------------------------------------------------------- The program

  /** From `lo` on, a midnight is admitted by the hard end iff it is before day `hi`. */
  ghost predicate DayLimit(hardEnd: Date, lo: int, hi: int) {
    lo <= hi && forall d :: lo <= d ==> (AtOrBefore(Midnight(d), hardEnd) <==> d < hi)
  }

  /** The first day on the interval grid from `from` on. */
  method FirstDailyCursor(g: Schedule, firstDay: int, from: int, ghost lo: int)
    returns (cursor: int, ghost c: int)
    requires g.frequency == DAILY && firstDay == Midnight(g.first) && Day(firstDay) == g.first <= lo == Day(from)
            && from == Midnight(lo)
    ensures cursor == Midnight(c) && lo <= c && OnGrid(c - g.first, g.interval)
    ensures Listed(CopiesOf(g), lo, c) == []
  {
    var interval := g.interval;
    var offsetDays := DaysBetweenUTC(firstDay, from);
    var remainder := offsetDays % interval;
    OnGridIsRemainderZero(offsetDays, interval);
    if remainder == 0 {
      cursor, c := from, lo;
    } else {
      DailyGap(g, lo);
      cursor, c := AddDaysUTC(from, interval - remainder), lo + interval - remainder;
    }
  }

  /** The DAILY loop: step by `interval` days. */
  method EmitDaily(g: Schedule, start: int, hardEnd: Date, maxResults: int,
                   ghost lo: int, ghost hi: int, ghost startDay: int)
    returns (list: seq<int>)
    requires g.frequency == DAILY && g.first <= lo <= startDay && start == Midnight(startDay)
            && DayLimit(hardEnd, lo, hi)
    requires OnGrid(startDay - g.first, g.interval) && Listed(CopiesOf(g), lo, startDay) == []
    ensures list == Truncated(Midnights(Listed(CopiesOf(g), lo, hi)), maxResults)
  {
    list := [];
    ghost var copies, c, distance := CopiesOf(g), startDay, startDay - g.first;
    ghost var all := Listed(copies, lo, hi);
    var cursor := start;
    ghost var done := Min(hi, c);
    EmptyPrefix(copies, lo, done, c);
    ghost var listed: seq<int> := [];
    while AtOrBefore(cursor, hardEnd)
      invariant cursor == Midnight(c) && c >= lo && 0 <= distance == c - g.first && OnGrid(distance, g.interval)
      invariant list == Midnights(listed) && done == Min(hi, c) && listed == Listed(copies, lo, done)
      invariant list == [] || |list| < maxResults
      decreases hi - c
    {
      DailyRound(g, c, distance, lo, hi, listed);
      MidnightsAppend(listed, c);
      list, listed := list + [cursor], listed + [c];
      if |list| >= maxResults {
        PrefixTruncates(listed, listed, all, maxResults);
        return;
      }
      cursor := AddDaysUTC(cursor, g.interval);
      c, distance := c + g.interval, distance + g.interval;
      done := Min(hi, c);
    }
    Untruncated(all, maxResults);
  }

  /** `weeksFromStart % interval === 0` for the week starting at `weekStart`. */
  method IsAligned(dtstartWeek0: int, weekStart: int, interval: int, ghost week0: int, ghost distance: nat)
    returns (aligned: bool)
    requires interval >= 1 && dtstartWeek0 == Midnight(SundayOfWeek(week0))
    requires weekStart == Midnight(SundayOfWeek(week0 + distance))
    ensures aligned <==> OnGrid(distance, interval)
  {
    var weeksFromStart := DaysBetweenUTC(dtstartWeek0, weekStart) / 7;
    WeeksBetween(week0, week0 + distance);
    OnGridIsRemainderZero(distance, interval);
    aligned := weeksFromStart % interval == 0;
  }

  /** The alignment search: the first Sunday from `from`'s week on that lies on the interval grid. */
  method AlignWeekStart(g: Schedule, firstDay: int, from: int, hardEnd: Date, ghost lo: int, ghost hi: int)
    returns (aligned: bool, weekStart: int, ghost sunday: int, ghost distance: nat, ghost steps: nat)
    requires g.frequency == WEEKLY && firstDay == Midnight(g.first) && Day(firstDay) == g.first <= lo == Day(from)
            && from == Midnight(lo) && DayLimit(hardEnd, lo, hi)
    ensures steps < g.interval
    ensures weekStart == Midnight(sunday) && WeekAt(g, sunday, distance) && lo < sunday + 7
    ensures aligned ==> OnGrid(distance, g.interval) && Listed(CopiesOf(g), lo, sunday) == []
    ensures !aligned ==> Listed(CopiesOf(g), lo, hi) == []
  {
    ghost var copies := CopiesOf(g);
    var interval := g.interval;
    var dtstartWeek0 := StartOfUTCWeekSun(firstDay);
    weekStart, steps := StartOfUTCWeekSun(from), 0;
    sunday, distance := WeekContaining(g, lo);
    ghost var goal := NextGridPoint(distance, interval);
    while true
      invariant weekStart == Midnight(sunday) && WeekAt(g, sunday, distance) && lo < sunday + 7
      invariant distance <= goal < distance - steps + interval
      invariant Listed(copies, lo, sunday) == []
      decreases goal - distance
    {
      aligned := IsAligned(dtstartWeek0, weekStart, interval, Week(g.first), distance);
      if aligned {
        return;
      }
      UnalignedWeek(g, sunday, distance, lo);
      weekStart := AddDaysUTC(weekStart, 7);
      sunday, distance, steps := sunday + 7, distance + 1, steps + 1;
      if EndsBefore(hardEnd, weekStart) {
        EmptyPrefix(copies, lo, Min(hi, sunday), sunday);
        return;
      }
    }
  }

  /** The first `j` weekdays of the week have been emitted after `prior`. */
  ghost predicate InWeek(list: seq<int>, listed: seq<int>, prior: seq<int>, days: seq<int>, j: nat,
                         sunday: int, lo: int, hi: int)
    requires j <= |days|
  {
    list == Midnights(listed) && listed == prior + WeekPart(days[..j], sunday, lo, hi)
  }

  lemma WeekDayEmitted(list: seq<int>, listed: seq<int>, prior: seq<int>, days: seq<int>, j: nat,
                       sunday: int, lo: int, hi: int, hardEnd: Date)
    requires j < |days| && InWeek(list, listed, prior, days, j, sunday, lo, hi) && DayLimit(hardEnd, lo, hi)
    ensures var d := sunday + days[j];
            if Midnight(d) < Midnight(lo) || !AtOrBefore(Midnight(d), hardEnd)
            then InWeek(list, listed, prior, days, j + 1, sunday, lo, hi)
            else InWeek(list + [Midnight(d)], listed + [d], prior, days, j + 1, sunday, lo, hi)
  {
    var d := sunday + days[j];
    WeekPartStep(days, j, sunday, lo, hi);
    MidnightsAppend(listed, d);
    assert lo <= d ==> (AtOrBefore(Midnight(d), hardEnd) <==> d < hi);
    assert prior + WeekPart(days[..j], sunday, lo, hi) + [d] == prior + (WeekPart(days[..j], sunday, lo, hi) + [d]);
    assert WeekPart(days[..j], sunday, lo, hi) + [] == WeekPart(days[..j], sunday, lo, hi);
  }

  /** The BYDAY loop of one week: emits the days of the week that lie in the window, unless the list fills up. */
  method EmitWeek(bydayIdx: seq<int>, weekStart: int, from: int, hardEnd: Date, maxResults: int, prior: seq<int>,
                  ghost sunday: int, ghost lo: int, ghost hi: int, ghost priorDays: seq<int>)
    returns (list: seq<int>, full: bool, ghost listed: seq<int>)
    requires weekStart == Midnight(sunday) && from == Midnight(lo) && DayLimit(hardEnd, lo, hi)
    requires prior == Midnights(priorDays) && (prior == [] || |prior| < maxResults)
    ensures list == Midnights(listed) && listed <= priorDays + WeekPart(bydayIdx, sunday, lo, hi)
    ensures full ==> |list| == Max(1, maxResults)
    ensures !full ==> listed == priorDays + WeekPart(bydayIdx, sunday, lo, hi) && (list == [] || |list| < maxResults)
  {
    list, full, listed := prior, false, priorDays;
    for j := 0 to |bydayIdx|
      invariant InWeek(list, listed, priorDays, bydayIdx, j, sunday, lo, hi)
      invariant list == [] || |list| < maxResults
    {
      WeekDayEmitted(list, listed, priorDays, bydayIdx, j, sunday, lo, hi, hardEnd);
      var occ := AddDaysUTC(weekStart, bydayIdx[j]); // Sunday(0) + dayIdx
      if occ < from || !AtOrBefore(occ, hardEnd) {
        continue;
      }
      list, listed := list + [occ], listed + [sunday + bydayIdx[j]];
      if |list| >= maxResults {
        WeekPartPrefix(bydayIdx, j + 1, sunday, lo, hi);
        full := true;
        return;
      }
    }
    assert bydayIdx[..|bydayIdx|] == bydayIdx;
  }

  /** One pass of the week loop. */
  method EmitAlignedWeek(g: Schedule, weekStart: int, from: int, hardEnd: Date, maxResults: int, prior: seq<int>,
                         ghost copies: int -> nat, ghost sunday: int, ghost distance: int, ghost lo: int, ghost hi: int,
                         ghost priorDays: seq<int>)
    returns (list: seq<int>, full: bool, ghost listed: seq<int>)
    requires WeekRounds(g, copies, lo, hi) && from == Midnight(lo) && DayLimit(hardEnd, lo, hi)
    requires AtWeek(g, weekStart, sunday, distance, lo) && sunday < hi
    requires Emitted(copies, lo, sunday, prior, priorDays, maxResults)
    ensures full ==> list == Truncated(Midnights(Listed(copies, lo, hi)), maxResults)
    ensures !full ==> Emitted(copies, lo, Min(hi, sunday + 7 * g.interval), list, listed, maxResults)
  {
    list, full, listed := EmitWeek(g.weekDays, weekStart, from, hardEnd, maxResults, prior, sunday, lo, hi, priorDays);
    if full {
      PrefixTruncates(listed, priorDays + WeekPart(g.weekDays, sunday, lo, hi), Listed(copies, lo, hi), maxResults);
    }
  }

  /** The loop over aligned weeks. */
  method EmitWeeks(g: Schedule, start: int, from: int, hardEnd: Date, maxResults: int, ghost copies: int -> nat,
                   ghost lo: int, ghost hi: int, ghost startSunday: int, ghost startDistance: int)
    returns (list: seq<int>)
    requires WeekRounds(g, copies, lo, hi) && from == Midnight(lo) && DayLimit(hardEnd, lo, hi)
    requires AtWeek(g, start, startSunday, startDistance, lo) && Listed(copies, lo, startSunday) == []
    ensures list == Truncated(Midnights(Listed(copies, lo, hi)), maxResults)
  {
    list := [];
    ghost var sunday, distance, listed := startSunday, startDistance, [];
    var weekStart, full := start, false;
    EmptyPrefix(copies, lo, Min(hi, sunday), sunday);
    while AtOrBefore(weekStart, hardEnd)
      invariant AtWeek(g, weekStart, sunday, distance, lo)
      invariant Emitted(copies, lo, Min(hi, sunday), list, listed, maxResults)
      decreases hi - sunday
    {
      WeekIsDue(hardEnd, weekStart, sunday, lo, hi);
      list, full, listed :=
        EmitAlignedWeek(g, weekStart, from, hardEnd, maxResults, list, copies, sunday, distance, lo, hi, listed);
      if full {
        return;
      }
      NextAligned(g, weekStart, sunday, distance, lo);
      weekStart := AddDaysUTC(weekStart, 7 * g.interval);
      sunday, distance := sunday + 7 * g.interval, distance + g.interval;
    }
    WeeksDone(copies, hardEnd, weekStart, sunday, lo, hi, list, listed, maxResults);
  }

  /** Starting at DTSTART's day instead of the window's loses no occurrence. */
  lemma WindowLimit(rules: RecurringRules, dtstart: int, windowStart: int, windowEnd: int, hardEnd: Date,
                    lo: int) returns (hi: int)
    requires hardEnd == HardEnd(rules, windowEnd) && !EndsBefore(hardEnd, windowStart)
    requires lo == Max(Day(windowStart), Day(dtstart))
    ensures DayLimit(hardEnd, lo, hi)
    ensures Listed(CopiesOf(ScheduleOf(rules, dtstart)), lo, hi) == Occurrences(rules, dtstart, windowStart, windowEnd)
  {
    if hardEnd.InvalidDate? {
      hi := lo;
    } else {
      hi := Max(lo, Day(hardEnd.ms) + 1);
      FromDtstart(ScheduleOf(rules, dtstart), Day(windowStart), Day(hardEnd.ms) + 1);
      forall d | lo <= d
        ensures AtOrBefore(Midnight(d), hardEnd) <==> d < hi
      {
        MidnightBound(d, hardEnd.ms);
      }
    }
  }

  /**
   The list is the first `max(1, maxResults)` of the occurrences, whatever the rule, the window
   and the limit. The ghost result counts the steps of the week alignment search.
   */
  method ExpandWindowUTC(rules: RecurringRules, dtstart: int, windowStart: int, windowEnd: int, maxResults: int := 1000)
    returns (list: seq<int>, ghost searchSteps: nat)
    ensures list == Expanded(rules, dtstart, windowStart, windowEnd, maxResults)
    ensures searchSteps < ScheduleOf(rules, dtstart).interval
  {
    list, searchSteps := [], 0;
    var hardEnd := Date(windowEnd);
    if rules.until.Some? {
      hardEnd := MinDate(hardEnd, rules.until.value);
    }
    if EndsBefore(hardEnd, windowStart) {
      return;
    }

    var firstDay := StartOfUTCDay(dtstart);
    var from := StartOfUTCDay(MaxDate(windowStart, firstDay)); // never before DTSTART
    var g := ScheduleOf(rules, dtstart);
    ghost var lo := Day(from);
    ghost var hi := WindowLimit(rules, dtstart, windowStart, windowEnd, hardEnd, lo);

    if rules.frequency == DAILY {
      var cursor;
      ghost var c;
      cursor, c := FirstDailyCursor(g, firstDay, from, lo);
      list := EmitDaily(g, cursor, hardEnd, maxResults, lo, hi, c);
      return;
    }
    if rules.frequency == WEEKLY {
      WeekDaysInWeek(rules, g.first);
      var aligned, weekStart;
      ghost var sunday, distance;
      aligned, weekStart, sunday, distance, searchSteps := AlignWeekStart(g, firstDay, from, hardEnd, lo, hi);
      if aligned {
        WeekRoundsHold(g, lo, hi);
        list := EmitWeeks(g, weekStart, from, hardEnd, maxResults, CopiesOf(g), lo, hi, sunday, distance);
      }
      return;
    }
    ListedEmpty(CopiesOf(g), lo, hi);
  }
}
