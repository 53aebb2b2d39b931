/**
  The calendar of report schedules in Asia/Tokyo, whose offset never changes: slots, the period that each slot
  reports on, and the enumeration of due periods. Days are counted from 1 January of year 0; a date string is its
  day number.
 */
module ReportCalendar {
  import opened Options
  import opened ReportSchedule
  import ReportScheduleStore

  const DAY_MINUTES := 24 * 60
  const TOKYO_OFFSET := 9 * 60
  const MAX_ENUMERATION: nat := 500

  /** The Monday before 1 January of year 0, which is a Saturday. */
  const FIRST_MONDAY := -5

  predicate Leap(year: int) {
    year % 4 == 0 && (year % 100 != 0 || year % 400 == 0)
  }

  /** Leap years from year 0 up to `year`, exclusively. */
  function LeapsBefore(year: int): int {
    (year + 3) / 4 - (year + 99) / 100 + (year + 399) / 400
  }

  function DaysBeforeYear(year: int): int {
    365 * year + LeapsBefore(year)
  }

  /** Months count from 0, as in the source's dates. */
  type Month = m: int | 0 <= m < 12

  /** Days of the year before its month. */
  function DaysBeforeMonth(year: int, month: Month): nat {
    [0, 31, 59, 90, 120, 151, 181, 212, 243, 273, 304, 334][month] + if month >= 2 && Leap(year) then 1 else 0
  }

  /** A local slot at midnight: a Monday, the first of a month, or 1 January; no other slot is canonical. */
  datatype Slot = Weekly(week: int) | Monthly(year: int, month: Month) | Annual(of: int)

  datatype Period = Period(start: int, end: int)

  function FirstDay(s: Slot): int {
    match s
    case Weekly(week) => 7 * week + FIRST_MONDAY
    case Monthly(year, month) => DaysBeforeYear(year) + DaysBeforeMonth(year, month)
    case Annual(year) => DaysBeforeYear(year)
  }

  function Advance(s: Slot): Slot {
    match s
    case Weekly(week) => Weekly(week + 1)
    case Monthly(year, month) => if month == 11 then Monthly(year + 1, 0) else Monthly(year, month + 1)
    case Annual(year) => Annual(year + 1)
  }

  /** The seven days before a Monday, the month before its first day, or the whole year before. */
  function PeriodOf(s: Slot): Period {
    match s
    case Weekly(_) => Period(FirstDay(s) - 7, FirstDay(s) - 1)
    case Monthly(year, month) =>
      Period(FirstDay(if month == 0 then Monthly(year - 1, 11) else Monthly(year, month - 1)), FirstDay(s) - 1)
    case Annual(year) => Period(DaysBeforeYear(year - 1), DaysBeforeYear(year - 1) + DaysBeforeMonth(year - 1, 11) + 30)
  }

  /** The instant at `runTime` minutes past local midnight of a day. */
  function InstantOfDay(day: int, runTime: int): int {
    (day * DAY_MINUTES + runTime - TOKYO_OFFSET) * MINUTE
  }

  function InstantAt(runTime: int): Slot -> int {
    (s: Slot) => InstantOfDay(FirstDay(s), runTime)
  }

  function Iterate<S>(advance: S -> S, first: S, n: nat): S {
    if n == 0 then first else advance(Iterate(advance, first, n - 1))
  }

  function InstantsOf<S>(first: S, advance: S -> S, instant: S -> int): Slots {
    (n: nat) => instant(Iterate(advance, first, n))
  }

  function SlotAt(s: Slot, n: nat): Slot {
    Iterate(Advance, s, n)
  }

  /** The slots of a schedule from `s` on, as the schedule's machine numbers them. */
  function SlotsFrom(s: Slot, runTime: int): Slots {
    InstantsOf(s, Advance, InstantAt(runTime))
  }

  // ----- Successive periods -----

  lemma PassesMultipleOf4(n: int)
    ensures (n + 1 + 3) / 4 == (n + 3) / 4 + if n % 4 == 0 then 1 else 0
  {
  }

  lemma PassesMultipleOf100(n: int)
    ensures (n + 1 + 99) / 100 == (n + 99) / 100 + if n % 100 == 0 then 1 else 0
  {
  }

  lemma PassesMultipleOf400(n: int)
    ensures (n + 1 + 399) / 400 == (n + 399) / 400 + if n % 400 == 0 then 1 else 0
  {
  }

  lemma FourthCenturies(n: int)
    ensures n % 400 == 0 ==> n % 100 == 0
  {
    assert n % 400 == 0 ==> n == 100 * (4 * (n / 400));
  }

  lemma Centuries(n: int)
    ensures n % 100 == 0 ==> n % 4 == 0
  {
    assert n % 100 == 0 ==> n == 4 * (25 * (n / 100));
  }

  lemma YearLength(year: int)
    ensures DaysBeforeYear(year + 1) == DaysBeforeYear(year) + if Leap(year) then 366 else 365
  {
    PassesMultipleOf4(year);
    PassesMultipleOf100(year);
    PassesMultipleOf400(year);
    FourthCenturies(year);
    Centuries(year);
  }

  lemma MonthsInYear(year: int, m: Month)
    ensures m < 11 && (m == 3 || m == 5 || m == 8 || m == 10) ==>
              DaysBeforeMonth(year, m + 1) - DaysBeforeMonth(year, m) == 30
    ensures m == 1 ==> DaysBeforeMonth(year, m + 1) - DaysBeforeMonth(year, m) == if Leap(year) then 29 else 28
    ensures m < 11 && (m == 0 || m == 2 || m == 4 || m == 6 || m == 7 || m == 9) ==>
              DaysBeforeMonth(year, m + 1) - DaysBeforeMonth(year, m) == 31
  {
  }

  lemma December(year: int)
    ensures DaysBeforeMonth(year, 11) + 31 == if Leap(year) then 366 else 365
  {
  }

  /** April, June, September and November have 30 days, February 28 or 29, and all other months 31. */
  lemma MonthLength(year: int, m: Month)
    ensures FirstDay(Advance(Monthly(year, m))) - FirstDay(Monthly(year, m))
         == if m == 3 || m == 5 || m == 8 || m == 10 then 30
            else if m != 1 then 31
            else if year % 400 == 0 || (year % 4 == 0 && year % 100 != 0) then 29 else 28
  {
    if m == 11 {
      YearLength(year);
      December(year);
    } else {
      MonthsInYear(year, m);
    }
    FourthCenturies(year);
    Centuries(year);
  }

  /** The calendar repeats every 400 years, after 146097 days, which are whole weeks. */
  lemma FourCenturiesRepeat(year: int)
    ensures DaysBeforeYear(year + 400) == DaysBeforeYear(year) + 146097 && 146097 % 7 == 0
  {
    assert (year + 400 + 3) / 4 == (year + 3) / 4 + 100;
    assert (year + 400 + 99) / 100 == (year + 99) / 100 + 4;
    assert (year + 400 + 399) / 400 == (year + 399) / 400 + 1;
  }

  /** 1 January 1970 is day 719528, and 5 January 1970 a Monday; weekly slots are seven days apart from there. */
  lemma KnownDays(week: int)
    ensures FirstDay(Annual(1970)) == FirstDay(Monthly(1970, 0)) == 719528
    ensures FirstDay(Weekly(102791 + week)) == 719532 + 7 * week
  {
  }

  /** Nine o'clock in Tokyo is midnight of the same day in UTC, and minutes count from there. */
  lemma NineInTokyoIsMidnight(day: int, minutes: int)
    ensures InstantOfDay(day, 9 * 60 + minutes) == day * 86_400_000_000 + minutes * 60_000_000
  {
  }

  lemma YearAfter(year: int)
    ensures DaysBeforeYear(year) == DaysBeforeYear(year - 1) + if Leap(year - 1) then 366 else 365
  {
    YearLength(year - 1);
    assert year - 1 + 1 == year;
  }

  lemma DecemberEnds(start: int, before: int, length: int, next: int)
    requires before + 31 == length && next == start + length
    ensures start + before + 30 == next - 1
  {
  }

  lemma LastYear(year: int)
    ensures PeriodOf(Annual(year)).end == FirstDay(Annual(year)) - 1
  {
    YearAfter(year);
    December(year - 1);
    DecemberEnds(DaysBeforeYear(year - 1), DaysBeforeMonth(year - 1, 11), if Leap(year - 1) then 366 else 365,
                 DaysBeforeYear(year));
  }

  lemma SlotsAreLater(s: Slot)
    ensures FirstDay(s) < FirstDay(Advance(s))
  {
    match s {
      case Weekly(_) =>
      case Monthly(year, month) => MonthLength(year, month);
      case Annual(year) => YearLength(year);
    }
  }

  /** A period ends on the day before its slot, the next one starts on the slot's day, and every period has a day. */
  lemma PeriodsAbut(s: Slot)
    ensures PeriodOf(s).end == FirstDay(s) - 1 && PeriodOf(Advance(s)).start == FirstDay(s)
    ensures PeriodOf(s).start <= PeriodOf(s).end
  {
    match s {
      case Weekly(_) =>
      case Monthly(year, month) => if month == 0 { MonthLength(year - 1, 11); } else { MonthLength(year, month - 1); }
      case Annual(year) =>
        LastYear(year);
        YearLength(year - 1);
    }
  }

  lemma {:induction false} StepsIncrease(f: nat -> int, i: nat, j: nat)
    requires i < j && forall n: nat :: f(n) < f(n + 1)
    ensures f(i) < f(j)
    decreases j
  {
    if i < j - 1 {
      StepsIncrease(f, i, j - 1);
    }
    assert f(j - 1) < f(j - 1 + 1);
  }

  lemma DaysIncrease(s: Slot, i: nat, j: nat)
    requires i < j
    ensures FirstDay(SlotAt(s, i)) < FirstDay(SlotAt(s, j))
  {
    var f := (n: nat) => FirstDay(SlotAt(s, n));
    forall n: nat ensures f(n) < f(n + 1) {
      SlotsAreLater(SlotAt(s, n));
    }
    StepsIncrease(f, i, j);
  }

  lemma InstantsFollowDays(a: int, b: int, runTime: int)
    requires a < b
    ensures InstantOfDay(a, runTime) < InstantOfDay(b, runTime)
  {
  }

  /** Later slots are strictly later instants. */
  lemma SlotsIncrease(s: Slot, runTime: int, i: nat, j: nat)
    requires i < j
    ensures SlotsFrom(s, runTime)(i) < SlotsFrom(s, runTime)(j)
  {
    DaysIncrease(s, i, j);
    InstantsFollowDays(FirstDay(SlotAt(s, i)), FirstDay(SlotAt(s, j)), runTime);
  }

  lemma LaterPeriods(a: Slot, b: Slot)
    requires FirstDay(a) <= FirstDay(b)
    ensures PeriodOf(a).end < PeriodOf(Advance(b)).start
  {
    PeriodsAbut(a);
    PeriodsAbut(b);
  }

  /** A later period starts after the earlier one has ended. */
  lemma PeriodsIncrease(s: Slot, i: nat, j: nat)
    requires i < j
    ensures PeriodOf(SlotAt(s, i)).end < PeriodOf(SlotAt(s, j)).start
  {
    if i < j - 1 {
      DaysIncrease(s, i, j - 1);
    }
    LaterPeriods(SlotAt(s, i), SlotAt(s, j - 1));
  }

  /** Ordinals order the periods of a schedule as their start and end dates do. */
  lemma OrdinalsOrderPeriods(s: Slot, i: nat, j: nat)
    ensures i < j <==> PeriodOf(SlotAt(s, i)).start < PeriodOf(SlotAt(s, j)).start
    ensures i < j <==> PeriodOf(SlotAt(s, i)).end < PeriodOf(SlotAt(s, j)).end
  {
    PeriodsAbut(SlotAt(s, i));
    PeriodsAbut(SlotAt(s, j));
    if i < j {
      PeriodsIncrease(s, i, j);
    } else if j < i {
      PeriodsIncrease(s, j, i);
    }
  }

  /** The periods together leave no day out: they are the days before the last slot, from the first period on. */
  lemma {:induction false} EveryDayIsCovered(s: Slot, n: nat, day: int)
    requires PeriodOf(s).start <= day < FirstDay(SlotAt(s, n))
    ensures exists i: nat :: i <= n && PeriodOf(SlotAt(s, i)).start <= day <= PeriodOf(SlotAt(s, i)).end
  {
    PeriodsAbut(SlotAt(s, n));
    if day >= PeriodOf(SlotAt(s, n)).start {
    } else {
      PeriodsAbut(SlotAt(s, n - 1));
      EveryDayIsCovered(s, n - 1, day);
      var i: nat :| i <= n - 1 && PeriodOf(SlotAt(s, i)).start <= day <= PeriodOf(SlotAt(s, i)).end;
    }
  }

  // ----- Enumeration -----

  datatype Enumeration = Enumeration(periods: seq<Period>, next: Slot, hasMore: bool)

  /** The loop over due slots, for whatever calendar `advance` steps through. */
  method EnumerateSlots<S>(first: S, advance: S -> S, instant: S -> int, period: S -> Period, asOf: int, limit: nat)
    returns (periods: seq<Period>, next: S)
    ensures |periods| == DueCount(InstantsOf(first, advance, instant), 0, asOf, limit) && |periods| <= limit
    ensures forall i :: 0 <= i < |periods| ==> instant(Iterate(advance, first, i)) <= asOf
    ensures |periods| == limit || instant(next) > asOf
    ensures forall i :: 0 <= i < |periods| ==> periods[i] == period(Iterate(advance, first, i))
    ensures next == Iterate(advance, first, |periods|)
  {
    periods, next := [], first;
    while instant(next) <= asOf && |periods| < limit
      invariant |periods| <= limit && next == Iterate(advance, first, |periods|)
      invariant forall i :: 0 <= i < |periods| ==> periods[i] == period(Iterate(advance, first, i))
      invariant forall i :: 0 <= i < |periods| ==> instant(Iterate(advance, first, i)) <= asOf
      decreases limit - |periods|
    {
      periods := periods + [period(next)];
      next := advance(next);
    }
    forall i: nat | i < |periods| ensures InstantsOf(first, advance, instant)(i) <= asOf {
    }
    ReportScheduleStore.CountsDueSlots(InstantsOf(first, advance, instant), 0, asOf, limit, |periods|);
  }

  /** The due periods from a slot on; a limit outside 1..500 is refused. */
  method EnumerateDuePeriods(asOf: int, nextRun: Slot, runTime: int, limit: nat) returns (result: Option<Enumeration>)
    ensures result.Some? <==> 1 <= limit <= 500
    ensures result.Some? ==>
              var e := result.value;
              && |e.periods| == DueCount(SlotsFrom(nextRun, runTime), 0, asOf, limit) && |e.periods| <= limit
              && (forall i :: 0 <= i < |e.periods| ==> InstantOfDay(FirstDay(SlotAt(nextRun, i)), runTime) <= asOf)
              && (|e.periods| == limit || InstantOfDay(FirstDay(e.next), runTime) > asOf)
              && (forall i :: 0 <= i < |e.periods| ==> e.periods[i] == PeriodOf(SlotAt(nextRun, i)))
              && e.next == SlotAt(nextRun, |e.periods|)
              && (e.hasMore <==> InstantOfDay(FirstDay(e.next), runTime) <= asOf)
  {
    if limit < 1 || limit > MAX_ENUMERATION {
      return None;
    }
    var periods, next := EnumerateSlots(nextRun, Advance, InstantAt(runTime), PeriodOf, asOf, limit);
    result := Some(Enumeration(periods, next, InstantAt(runTime)(next) <= asOf));
  }
}
