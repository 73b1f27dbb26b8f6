/** The occurrence dates of a recurring rule. */
module Recurrence {
  import opened Wrappers
  import opened Calendar

  const MAX_OCCURRENCES: nat := 2000

  datatype Frequency = Weekly | Monthly | Yearly

  function AddMonthsClamped(start: Date, months: int): Date {
    var total := start.month - 1 + months;
    var year := start.year + total / 12;
    var month := total % 12 + 1;
    var last := DaysIn(year, month);
    YearMonthDay(year, month, if start.day <= last then start.day else last)
  }

  function OccurrenceDate(start: Date, frequency: Frequency, periods: nat): Date {
    match frequency
    case Weekly => AddDays(start, 7 * periods)
    case Monthly => AddMonthsClamped(start, periods)
    case Yearly => AddMonthsClamped(start, 12 * periods)
  }

  datatype Schedule = Schedule(start: Date, frequency: Frequency, interval: int, end: Option<Date>)

  /** The date of occurrence number `index`, always computed from the start. */
  function Occurrence(s: Schedule, index: nat): Date
    requires s.interval >= 1
  {
    OccurrenceDate(s.start, s.frequency, s.interval * index)
  }

  /** Whether occurrence `index` is in the range and not past the rule's end. */
  predicate Counts(s: Schedule, from: Date, to: Date, index: nat)
    requires s.interval >= 1
  {
    var d := Occurrence(s, index);
    AtMost(from, d) && AtMost(d, to) && (s.end.Some? ==> AtMost(d, s.end.value))
  }

  /** The occurrences with an index below `n` that count, in order. */
  function Occurrences(s: Schedule, from: Date, to: Date, n: nat): seq<Date>
    requires s.interval >= 1
  {
    if n == 0 then [] else
    Occurrences(s, from, to, n - 1) + if Counts(s, from, to, n - 1) then [Occurrence(s, n - 1)] else []
  }

  /** What the projector returns. */
  function Projection(s: Schedule, from: Date, to: Date): seq<Date> {
    if s.interval < 1 then [] else Occurrences(s, from, to, MAX_OCCURRENCES)
  }

  lemma AddMonthsClampedIsOnDay(start: Date, months: int)
    ensures AddMonthsClamped(start, months) == OnDay(MonthIndex(start) + months, start.day)
  {
  }

  lemma MulIncreases(k: int, i: nat, j: nat)
    requires k >= 1 && i < j
    ensures 0 <= k * i < k * j
  {
    assert k * j == k * i + k * (j - i);
    assert k * (j - i) >= 1 * (j - i);
  }

  /** Occurrences get strictly later. */
  lemma OccurrencesIncrease(s: Schedule, i: nat, j: nat)
    requires s.interval >= 1 && i < j
    ensures Before(Occurrence(s, i), Occurrence(s, j))
  {
    MulIncreases(s.interval, i, j);
    var p, q := s.interval * i, s.interval * j;
    match s.frequency
    case Weekly => AddDaysIncreases(s.start, 7 * p, 7 * q);
    case Monthly =>
      AddMonthsClampedIsOnDay(s.start, p);
      AddMonthsClampedIsOnDay(s.start, q);
      OnDayIncreases(MonthIndex(s.start) + p, MonthIndex(s.start) + q, s.start.day, s.start.day);
    case Yearly =>
      AddMonthsClampedIsOnDay(s.start, 12 * p);
      AddMonthsClampedIsOnDay(s.start, 12 * q);
      OnDayIncreases(MonthIndex(s.start) + 12 * p, MonthIndex(s.start) + 12 * q, s.start.day, s.start.day);
  }

  /** Occurrence `n` is past the range or past the rule's end. */
  predicate Past(s: Schedule, to: Date, n: nat)
    requires s.interval >= 1
  {
    Before(to, Occurrence(s, n)) || (s.end.Some? && Before(s.end.value, Occurrence(s, n)))
  }

  /** Both early breaks are sound: nothing that counts comes after an occurrence
      that is past the range or past the end. */
  lemma {:induction false} NothingAfterBreak(s: Schedule, from: Date, to: Date, n: nat, m: nat)
    requires s.interval >= 1 && n <= m && Past(s, to, n)
    ensures Occurrences(s, from, to, m) == Occurrences(s, from, to, n)
  {
    if n < m {
      NothingAfterBreak(s, from, to, n, m - 1);
      if n < m - 1 {
        OccurrencesIncrease(s, n, m - 1);
      }
    }
  }

  method ProjectOccurrenceDates(s: Schedule, from: Date, to: Date) returns (dates: seq<Date>)
    ensures dates == Projection(s, from, to)
  {
    if s.interval < 1 {
      return [];
    }
    dates := [];
    for index := 0 to MAX_OCCURRENCES
      invariant dates == Occurrences(s, from, to, index)
    {
      var occurrence := OccurrenceDate(s.start, s.frequency, s.interval * index);
      if Before(to, occurrence) {
        NothingAfterBreak(s, from, to, index, MAX_OCCURRENCES);
        break;
      }
      if s.end.Some? && Before(s.end.value, occurrence) {
        NothingAfterBreak(s, from, to, index, MAX_OCCURRENCES);
        break;
      }
      if AtMost(from, occurrence) {
        dates := dates + [occurrence];
      }
    }
  }

  // --- the projection is exact --------------------------------------------------------

  lemma {:induction false} OccurrencesMembers(s: Schedule, from: Date, to: Date, n: nat, d: Date)
    requires s.interval >= 1
    ensures d in Occurrences(s, from, to, n) <==> exists i: nat :: i < n && Counts(s, from, to, i) && Occurrence(s, i) == d
  {
    if n > 0 {
      OccurrencesMembers(s, from, to, n - 1, d);
      if i: nat :| i < n && Counts(s, from, to, i) && Occurrence(s, i) == d {
        assert i < n - 1 || i == n - 1;
      }
      if d in Occurrences(s, from, to, n) && d !in Occurrences(s, from, to, n - 1) {
        assert Counts(s, from, to, n - 1) && Occurrence(s, n - 1) == d;
      }
    }
  }

  ghost predicate Ascending(dates: seq<Date>) {
    forall i, j | 0 <= i < j < |dates| :: Before(dates[i], dates[j])
  }

  lemma {:induction false} OccurrencesAscend(s: Schedule, from: Date, to: Date, n: nat)
    requires s.interval >= 1
    ensures Ascending(Occurrences(s, from, to, n))
  {
    hide Occurrence, IsDate;
    if n > 0 {
      OccurrencesAscend(s, from, to, n - 1);
      var dates := Occurrences(s, from, to, n - 1);
      forall k | 0 <= k < |dates| ensures Before(dates[k], Occurrence(s, n - 1)) {
        OccurrencesMembers(s, from, to, n - 1, dates[k]);
        var i: nat :| i < n - 1 && Counts(s, from, to, i) && Occurrence(s, i) == dates[k];
        OccurrencesIncrease(s, i, n - 1);
      }
    }
  }

  /** Below the cap the projection is strictly ascending and holds every
      occurrence, of any index, that counts, and no other date. The cap only
      matters when occurrence 2000 itself is still to come. */
  lemma ProjectionIsExact(s: Schedule, from: Date, to: Date)
    ensures Ascending(Projection(s, from, to))
    ensures s.interval >= 1 && Past(s, to, MAX_OCCURRENCES) ==>
      forall d :: d in Projection(s, from, to) <==> exists i: nat :: Counts(s, from, to, i) && Occurrence(s, i) == d
  {
    if s.interval >= 1 {
      OccurrencesAscend(s, from, to, MAX_OCCURRENCES);
      if Past(s, to, MAX_OCCURRENCES) {
        forall d ensures d in Projection(s, from, to) <==> exists i: nat :: Counts(s, from, to, i) && Occurrence(s, i) == d {
          OccurrencesMembers(s, from, to, MAX_OCCURRENCES, d);
          if i: nat :| Counts(s, from, to, i) && Occurrence(s, i) == d {
            if i > MAX_OCCURRENCES {
              OccurrencesIncrease(s, MAX_OCCURRENCES, i);
            }
            assert i < MAX_OCCURRENCES;
          }
        }
      }
    }
  }

  /** Projections over adjacent ranges join to the projection over their union. */
  lemma AdjacentProjections(s: Schedule, from: Date, mid: Date, to: Date)
    requires AtMost(from, NextDay(mid)) && AtMost(mid, to)
    ensures Projection(s, from, mid) + Projection(s, NextDay(mid), to) == Projection(s, from, to)
  {
    if s.interval >= 1 {
      AdjacentOccurrences(s, from, mid, to, MAX_OCCURRENCES);
    }
  }

  lemma {:induction false} AdjacentOccurrences(s: Schedule, from: Date, mid: Date, to: Date, n: nat)
    requires s.interval >= 1 && AtMost(from, NextDay(mid)) && AtMost(mid, to)
    ensures Occurrences(s, from, mid, n) + Occurrences(s, NextDay(mid), to, n) == Occurrences(s, from, to, n)
  {
    if n > 0 {
      AdjacentOccurrences(s, from, mid, to, n - 1);
      var d := Occurrence(s, n - 1);
      DaysAreConsecutive(mid, d);
      DayStep(mid);
      if AtMost(d, mid) {
        // Everything before `d` is at most `mid` too, so the later range is still empty.
        EmptyRange(s, NextDay(mid), to, n - 1, mid);
      }
    }
  }

  lemma {:induction false} EmptyRange(s: Schedule, from: Date, to: Date, n: nat, mid: Date)
    requires s.interval >= 1 && AtMost(Occurrence(s, n), mid) && Before(mid, from)
    ensures Occurrences(s, from, to, n) == []
  {
    if n > 0 {
      OccurrencesIncrease(s, n - 1, n);
      EmptyRange(s, from, to, n - 1, mid);
    }
  }

  // --- how far apart occurrences lie -----------------------------------------------------

  /** A weekly rule comes back on the same weekday: the next occurrence is seven
      days times the interval later. Monthly and yearly ones come in the month that many
      months or years after the first, on the first one's day or the last before it. */
  lemma OccurrenceSpacing(s: Schedule, i: nat)
    requires s.interval >= 1
    ensures Occurrence(s, 0) == s.start
    ensures s.frequency == Weekly ==> Occurrence(s, i + 1) == AddDays(Occurrence(s, i), 7 * s.interval)
    ensures s.frequency == Monthly ==> MonthIndex(Occurrence(s, i)) == MonthIndex(s.start) + s.interval * i
    ensures s.frequency == Yearly ==>
      Occurrence(s, i).month == s.start.month && Occurrence(s, i).year == s.start.year + s.interval * i
    ensures s.frequency != Weekly ==>
      var d := Occurrence(s, i);
      d.day <= s.start.day && (d.day == s.start.day || NextDay(d).month != d.month)
  {
    MulNext(s.interval, i);
    match s.frequency
    case Weekly => DaysAddUp(s.start, 7 * (s.interval * i), 7 * s.interval);
    case Monthly => AddMonthsClampedIsOnDay(s.start, s.interval * i);
    case Yearly => AddMonthsClampedIsOnDay(s.start, 12 * (s.interval * i));
  }

  lemma MulNext(k: int, i: nat)
    requires k >= 1
    ensures k * (i + 1) == k * i + k && k * i >= 0
    ensures 7 * (k * (i + 1)) == 7 * (k * i) + 7 * k
  {
  }
}
