/**
 What a recurrence rule asks for, said of its fields alone: day numbers, weekday names, remainders.
 Day 0 is Thursday 1 January 1970; a day is 86400000 milliseconds.
 */
module RecurrenceRules {
  import opened Wrappers
  import opened Utc
  import opened Sorting
  import opened Recurrence
  import opened RecurrenceLaws

  /** `name` is the BYDAY name of day `d`'s weekday. */
  predicate Names(name: string, d: int) {
    match (d + 4) % 7
    case 0 => name == "SU"
    case 1 => name == "MO"
    case 2 => name == "TU"
    case 3 => name == "WE"
    case 4 => name == "TH"
    case 5 => name == "FR"
    case _ => name == "SA"
  }

  predicate IsDayName(name: string) {
    name in {"SU", "MO", "TU", "WE", "TH", "FR", "SA"}
  }

  /** BYDAY holds at least one name that is one. */
  predicate HasDayName(rules: RecurringRules) {
    rules.byday.Some? && exists k :: 0 <= k < |rules.byday.value| && IsDayName(rules.byday.value[k])
  }

  function NameCount(names: seq<string>, d: int): nat {
    if names == [] then 0 else (if Names(names[0], d) then 1 else 0) + NameCount(names[1..], d)
  }

  function FirstDay(dtstart: int): int {
    dtstart / 86_400_000
  }

  function Interval(rules: RecurringRules): int {
    if rules.interval.Some? && rules.interval.value > 1 then rules.interval.value else 1
  }

  /** How often the rule asks for day `d`: not before DTSTART, every so many days, or weeks from Sunday to Saturday. */
  function Asked(rules: RecurringRules, dtstart: int, d: int): nat {
    var first, n := FirstDay(dtstart), Interval(rules);
    if d < first then 0
    else match rules.frequency
      case DAILY => if (d - first) % n == 0 then 1 else 0
      case WEEKLY =>
        if ((d + 4) / 7 - (first + 4) / 7) % n != 0 then 0
        else if HasDayName(rules) then NameCount(rules.byday.value, d)
        else if (d + 4) % 7 == (first + 4) % 7 then 1
        else 0
      case MONTHLY => 0
      case YEARLY => 0
  }

  /** Day `d` is in the window: its midnight is not after the end, nor after UNTIL; an invalid UNTIL admits nothing. */
  predicate InWindow(rules: RecurringRules, windowStart: int, windowEnd: int, d: int) {
    && windowStart / 86_400_000 <= d && d * 86_400_000 <= windowEnd && windowStart <= windowEnd
    && match rules.until
       case None => true
       case Some(InvalidDate) => false
       case Some(Date(until)) => d * 86_400_000 <= until && windowStart <= until
  }

  // ---------------------------------------------------------------- The rule's fields and the schedule

  lemma {:induction false} IndicesCount(names: seq<string>, d: int)
    ensures multiset(ValidIndices(names))[WeekDay(d)] == NameCount(names, d)
    ensures ValidIndices(names) != [] <==> exists k :: 0 <= k < |names| && IsDayName(names[k])
    decreases |names|
  {
    if names != [] {
      var rest := names[1..];
      IndicesCount(rest, d);
      NameIndex(names[0], d);
      var i := IndexOf(ICAL_DAYS, names[0]);
      CountConcat(if i >= 0 then [i] else [], ValidIndices(rest), WeekDay(d));
      if k :| 0 <= k < |rest| && IsDayName(rest[k]) { assert IsDayName(names[k + 1]); }
      if k :| 0 < k < |names| && IsDayName(names[k]) { assert IsDayName(rest[k - 1]); }
    }
  }

  lemma NameIndex(name: string, d: int)
    ensures IndexOf(ICAL_DAYS, name) >= 0 <==> IsDayName(name)
    ensures IndexOf(ICAL_DAYS, name) == WeekDay(d) <==> Names(name, d)
  {
    var i := IndexOf(ICAL_DAYS, name);
    assert ICAL_DAYS[WeekDay(d)] in ICAL_DAYS;
    assert Names(name, d) <==> name == ICAL_DAYS[WeekDay(d)];
    assert IsDayName(name) <==> name in ICAL_DAYS;
    if name == ICAL_DAYS[WeekDay(d)] && i != WeekDay(d) { DayNamesDistinct(i, WeekDay(d)); }
  }

  lemma WeekDaysCount(rules: RecurringRules, first: int, d: int)
    ensures multiset(WeekDays(rules, first))[WeekDay(d)]
            == if HasDayName(rules) then NameCount(rules.byday.value, d)
               else if (d + 4) % 7 == (first + 4) % 7 then 1 else 0
  {
    if rules.byday.Some? {
      var valid := ValidIndices(rules.byday.value);
      IndicesCount(rules.byday.value, d);
      SortSorts(valid);
      assert |Sort(valid)| == |multiset(Sort(valid))| == |multiset(valid)| == |valid|;
    }
  }

  lemma AskedIsCopies(rules: RecurringRules, dtstart: int, d: int)
    ensures Copies(ScheduleOf(rules, dtstart), d) == Asked(rules, dtstart, d)
  {
    var g := ScheduleOf(rules, dtstart);
    assert g.first == FirstDay(dtstart) && g.interval == Interval(rules);
    if d >= g.first && g.frequency == DAILY {
      OnGridIsRemainderZero(d - g.first, g.interval);
    }
    if d >= g.first && g.frequency == WEEKLY {
      OnGridIsRemainderZero(Week(d) - Week(g.first), g.interval);
      WeekDaysCount(rules, g.first, d);
    }
  }

  lemma OccurrencesAsked(rules: RecurringRules, dtstart: int, windowStart: int, windowEnd: int, d: int)
    ensures var days := Occurrences(rules, dtstart, windowStart, windowEnd);
            && Sorted(days)
            && multiset(days)[d] == if InWindow(rules, windowStart, windowEnd, d) then Asked(rules, dtstart, d) else 0
  {
    OccurrencesExact(rules, dtstart, windowStart, windowEnd, d);
    AskedIsCopies(rules, dtstart, d);
    assert Midnight(d) == d * 86_400_000 && Day(windowStart) == windowStart / 86_400_000;
  }

  // ---------------------------------------------------------------- The list a caller gets

  lemma {:induction false} MidnightsCount(days: seq<int>, d: int)
    ensures multiset(Midnights(days))[d * 86_400_000] == multiset(days)[d]
  {
    if days != [] {
      MidnightsCount(days[1..], d);
      assert Midnights(days)[1..] == Midnights(days[1..]);
      DropHead(days, d);
      DropHead(Midnights(days), d * 86_400_000);
    }
  }

  lemma PrefixCount(s: seq<int>, k: nat, x: int)
    requires Sorted(s) && k <= |s|
    ensures multiset(s[..k])[x] <= multiset(s)[x]
    ensures k == |s| || (k > 0 && x < s[k - 1]) ==> multiset(s[..k])[x] == multiset(s)[x]
  {
    assert s == s[..k] + s[k..];
    CountConcat(s[..k], s[k..], x);
    if k < |s| && k > 0 && x < s[k - 1] {
      assert x !in s[k..];
    }
  }

  lemma CutExactly(all: seq<int>, maxResults: int, x: int)
    requires Sorted(all)
    ensures var list := Truncated(all, maxResults);
            && |list| <= Limit(maxResults) && list <= all
            && (forall i, j :: 0 <= i < j < |list| ==> list[i] <= list[j])
            && multiset(list)[x] <= multiset(all)[x]
            && (|list| < Limit(maxResults) || x < list[|list| - 1] ==> multiset(list)[x] == multiset(all)[x])
  {
    PrefixCount(all, |Truncated(all, maxResults)|, x);
    assert all[..|all|] == all;
  }

  function Limit(maxResults: int): int {
    if maxResults > 1 then maxResults else 1
  }

  /**
   The whole list, from the rule's fields: midnights in ascending order, at most max(1, maxResults) of
   them, each day of the window as often as the rule asks for it; a list that is full is cut off at
   its end only, so every day before its last entry is complete.
   */
  lemma ExpandedExactly(rules: RecurringRules, dtstart: int, windowStart: int, windowEnd: int, maxResults: int, d: int)
    ensures var list := Expanded(rules, dtstart, windowStart, windowEnd, maxResults);
            var asked := if InWindow(rules, windowStart, windowEnd, d) then Asked(rules, dtstart, d) else 0;
            && |list| <= Limit(maxResults)
            && (forall i, j :: 0 <= i < j < |list| ==> list[i] <= list[j])
            && (forall i :: 0 <= i < |list| ==> list[i] % 86_400_000 == 0)
            && multiset(list)[d * 86_400_000] <= asked
            && (|list| < Limit(maxResults) || d * 86_400_000 < list[|list| - 1] ==>
                  multiset(list)[d * 86_400_000] == asked)
  {
    var days := Occurrences(rules, dtstart, windowStart, windowEnd);
    OccurrencesAsked(rules, dtstart, windowStart, windowEnd, d);
    MidnightsCount(days, d);
    MidnightsSorted(days);
    CutExactly(Midnights(days), maxResults, d * 86_400_000);
  }

  lemma MidnightsSorted(days: seq<int>)
    requires Sorted(days)
    ensures Sorted(Midnights(days)) && forall i :: 0 <= i < |days| ==> Midnights(days)[i] % 86_400_000 == 0
  {
  }

  /** Membership: in a list that is not full, exactly the days of the window the rule asks for. */
  lemma ListedIff(rules: RecurringRules, dtstart: int, windowStart: int, windowEnd: int, maxResults: int, d: int)
    requires |Expanded(rules, dtstart, windowStart, windowEnd, maxResults)| < Limit(maxResults)
    ensures d * 86_400_000 in Expanded(rules, dtstart, windowStart, windowEnd, maxResults)
            <==> InWindow(rules, windowStart, windowEnd, d) && Asked(rules, dtstart, d) > 0
  {
    ExpandedExactly(rules, dtstart, windowStart, windowEnd, maxResults, d);
    var list := Expanded(rules, dtstart, windowStart, windowEnd, maxResults);
    assert d * 86_400_000 in list <==> d * 86_400_000 in multiset(list);
  }

  /** When BYDAY names weekdays, a WEEKLY rule asks for `d` only if one of the names is the name of its weekday. */
  lemma {:induction false} NameCountPositive(names: seq<string>, d: int)
    ensures NameCount(names, d) > 0 <==> exists k :: 0 <= k < |names| && Names(names[k], d)
    decreases |names|
  {
    if names != [] {
      var rest := names[1..];
      NameCountPositive(rest, d);
      if k :| 0 <= k < |rest| && Names(rest[k], d) { assert Names(names[k + 1], d); }
      if k :| 0 < k < |names| && Names(names[k], d) { assert Names(rest[k - 1], d); }
    }
  }

  /** `nextOccurrenceUTC`: the first day asked for, from the start day to the end of the lookahead. */
  lemma NextAsked(rules: RecurringRules, dtstart: int, fromUTC: int, lookaheadDays: int)
    ensures var start := fromUTC / 86_400_000 * 86_400_000;
            var end := start + lookaheadDays * 86_400_000;
            match NextOf(rules, dtstart, fromUTC, lookaheadDays)
            case None => forall d :: InWindow(rules, start, end, d) ==> Asked(rules, dtstart, d) == 0
            case Some(t) =>
              exists d :: && t == d * 86_400_000 && InWindow(rules, start, end, d) && Asked(rules, dtstart, d) > 0
                          && forall e :: InWindow(rules, start, end, e) && e < d ==> Asked(rules, dtstart, e) == 0
  {
    var start := StartOfUTCDay(fromUTC);
    var end := AddDaysUTC(start, lookaheadDays);
    var days := Occurrences(rules, dtstart, start, end);
    forall d
      ensures d in days <==> InWindow(rules, start, end, d) && Asked(rules, dtstart, d) > 0
    {
      OccurrencesAsked(rules, dtstart, start, end, d);
      assert d in days <==> d in multiset(days);
    }
    if days != [] {
      OccurrencesAsked(rules, dtstart, start, end, days[0]);
      assert days[0] in days;
    }
  }
}
