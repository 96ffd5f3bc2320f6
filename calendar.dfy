/** Proleptic Gregorian dates as Python's `datetime.date` has them:
    years 1 to 9999, chronological order, and the step to the next day. */
module Calendar {

  datatype Date = Date(year: int, month: int, day: int)

  const MinYear := 1
  const MaxYear := 9999

  predicate IsLeapYear(y: int) {
    y % 4 == 0 && (y % 100 != 0 || y % 400 == 0)
  }

  function DaysInMonth(y: int, m: int): (n: int)
    requires 1 <= m <= 12
    ensures 28 <= n <= 31
    ensures m == 2 ==> (n == 29 <==> IsLeapYear(y))
  {
    if m == 2 then (if IsLeapYear(y) then 29 else 28)
    else if m == 4 || m == 6 || m == 9 || m == 11 then 30
    else 31
  }

  /** What `date(year, month, day)` accepts without raising ValueError. */
  predicate Valid(d: Date) {
    && MinYear <= d.year <= MaxYear
    && 1 <= d.month <= 12
    && 1 <= d.day <= DaysInMonth(d.year, d.month)
  }

  /** `a < b` on dates: chronological, that is, lexicographic on (year, month, day). */
  predicate Before(a: Date, b: Date) {
    || a.year < b.year
    || (a.year == b.year && a.month < b.month)
    || (a.year == b.year && a.month == b.month && a.day < b.day)
  }

  /** The first day of the month after `month`; December rolls over into
      January of the next year. */
  function FirstOfNextMonth(year: int, month: int): (r: Date)
    requires 1 <= month <= 12
    ensures Before(Date(year, month, DaysInMonth(year, month)), r)
    ensures r.day == 1
    ensures MinYear <= year <= MaxYear && !(year == MaxYear && month == 12) ==> Valid(r)
  {
    if month == 12 then Date(year + 1, 1, 1) else Date(year, month + 1, 1)
  }

  /** The first of the next month is the day after the month's last, so no
      valid date falls between the two. */
  lemma FirstOfNextMonthIsNextDay(year: int, month: int)
    requires 1 <= month <= 12 && Valid(Date(year, month, 1))
    ensures FirstOfNextMonth(year, month) == NextDay(Date(year, month, DaysInMonth(year, month)))
    ensures forall x :: Valid(x) && Before(Date(year, month, DaysInMonth(year, month)), x) ==>
      !Before(x, FirstOfNextMonth(year, month))
  {
  }

  /** `d + timedelta(days=1)`. */
  function NextDay(d: Date): (r: Date)
    requires Valid(d)
    ensures Before(d, r)
    ensures d.year < MaxYear || d.month < 12 || d.day < 31 ==> Valid(r)
    ensures forall x :: Valid(x) && Before(d, x) ==> !Before(x, r)
  {
    if d.day < DaysInMonth(d.year, d.month) then Date(d.year, d.month, d.day + 1)
    else FirstOfNextMonth(d.year, d.month)
  }

  lemma BeforeIsStrictOrder(a: Date, b: Date, c: Date)
    ensures !Before(a, a)
    ensures Before(a, b) ==> !Before(b, a)
    ensures Before(a, b) && Before(b, c) ==> Before(a, c)
    ensures a != b ==> Before(a, b) || Before(b, a)
  {
  }
}
