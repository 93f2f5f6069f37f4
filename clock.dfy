/**
 * Calendar-month helpers of the expense grid: the twelve months of a year,
 * whether a month lies after the current one, and whether a year has any
 * month that is not in the future. The current month, which the front end
 * reads once from the wall clock, is an explicit parameter `now`.
 */
module Clock {
  import opened Arrays

  /** A calendar month: a year and a month number, 1 for January up to 12 for December. */
  datatype YearMonth = YearMonth(year: int, month: int)

  predicate ValidMonth(ym: YearMonth)
  {
    1 <= ym.month <= 12
  }

  /**
   * The current month built from the clock's full year and its zero-based
   * month index (January is 0), shifted to the 1-based numbering.
   */
  function Now(fullYear: int, monthIndex: int): (now: YearMonth)
    requires 0 <= monthIndex < 12
    ensures ValidMonth(now)
    ensures now.year == fullYear && now.month - 1 == monthIndex
  {
    YearMonth(fullYear, monthIndex + 1)
  }

  /** The twelve months of `year`, January first. */
  function MonthsForYear(year: int): (months: seq<YearMonth>)
    ensures |months| == 12
    ensures forall i :: 0 <= i < |months| ==> months[i].year == year && months[i].month == i + 1
  {
    seq(12, i requires 0 <= i < 12 => YearMonth(year, i + 1))
  }

  /** Every entry is a valid month of `year`, and every valid month of `year` is an entry. */
  lemma MonthsForYearExactly(year: int, ym: YearMonth)
    ensures ym in MonthsForYear(year) <==> ym.year == year && ValidMonth(ym)
  {
    if ym.year == year && ValidMonth(ym) {
      assert MonthsForYear(year)[ym.month - 1] == ym;
    }
  }

  /** The months run strictly upwards, so no month appears twice. */
  lemma MonthsForYearAscending(year: int, i: int, j: int)
    requires 0 <= i < j < 12
    ensures MonthsForYear(year)[i].month < MonthsForYear(year)[j].month
  {
  }

  /** Is `ym` after the current month `now`? */
  function IsFuture(ym: YearMonth, now: YearMonth): (future: bool)
    ensures ym.year > now.year ==> future
    ensures ym.year < now.year ==> !future
    ensures ym.year == now.year ==> (future <==> ym.month > now.month)
  {
    if ym.year > now.year then true
    else ym.year == now.year && ym.month > now.month
  }

  /**
   * Lexicographic "strictly after" on integer tuples: the first position
   * where they differ decides; a tuple never comes after one it is a prefix of.
   */
  function LexAfter(a: seq<int>, b: seq<int>): bool
    decreases |a|
  {
    if a == [] then false
    else if b == [] then true
    else a[0] > b[0] || (a[0] == b[0] && LexAfter(a[1..], b[1..]))
  }

  /** `IsFuture` is the lexicographic order on `[year, month]` pairs. */
  lemma IsFutureIsLexAfter(ym: YearMonth, now: YearMonth)
    ensures IsFuture(ym, now) <==> LexAfter([ym.year, ym.month], [now.year, now.month])
  {
    assert [ym.year, ym.month][1..] == [ym.month];
    assert [now.year, now.month][1..] == [now.month];
    assert LexAfter([ym.month], [now.month]) <==> ym.month > now.month by {
      assert [ym.month][1..] == [] && [now.month][1..] == [];
      assert !LexAfter([], []);
    }
  }

  /** Months counted from January of year 0: one integer per calendar month. */
  function MonthNumber(ym: YearMonth): int
  {
    12 * ym.year + (ym.month - 1)
  }

  /** For valid months, `IsFuture` is "a later month number". */
  lemma IsFutureIsLaterMonthNumber(ym: YearMonth, now: YearMonth)
    requires ValidMonth(ym) && ValidMonth(now)
    ensures IsFuture(ym, now) <==> MonthNumber(ym) > MonthNumber(now)
  {
  }

  /** Within the current year, the future months are exactly those after the first `now.month`. */
  lemma CurrentYearFutureMonths(now: YearMonth, i: int)
    requires 0 <= i < 12
    ensures IsFuture(MonthsForYear(now.year)[i], now) <==> i >= now.month
  {
  }

  /** The predicate `hasVisibleMonths` hands to `some`: the month is at or before `now`. */
  function Visible(now: YearMonth): (visible: YearMonth -> bool)
    ensures forall ym :: visible(ym) <==>
              ym.year < now.year || (ym.year == now.year && ym.month <= now.month)
  {
    ym => !IsFuture(ym, now)
  }

  /** Does some month of `year` lie at or before the current month? */
  function HasVisibleMonths(year: int, now: YearMonth): (r: bool)
    ensures r <==> exists m :: 1 <= m <= 12 && !IsFuture(YearMonth(year, m), now)
  {
    var months := MonthsForYear(year);
    AnyIff(months, Visible(now));
    assert forall m :: 1 <= m <= 12 ==> months[m - 1] == YearMonth(year, m);
    Any(months, Visible(now))
  }

  /**
   * With a current month of at least January, a year has a visible month
   * exactly when it is not after the current year.
   */
  lemma HasVisibleMonthsIff(year: int, now: YearMonth)
    requires 1 <= now.month
    ensures HasVisibleMonths(year, now) <==> year <= now.year
  {
  }

  /** With the current month read from the clock, exactly the years up to the clock's year have visible months. */
  lemma HasVisibleMonthsAtClock(year: int, fullYear: int, monthIndex: int)
    requires 0 <= monthIndex < 12
    ensures HasVisibleMonths(year, Now(fullYear, monthIndex)) <==> year <= fullYear
  {
    HasVisibleMonthsIff(year, Now(fullYear, monthIndex));
  }
}
