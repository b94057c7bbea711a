/** Calendar days of the proleptic Gregorian calendar, as JavaScript's Date
    arithmetic treats them once the time of day is discarded. */
module Calendar {

  datatype Date = Date(year: int, month: int, day: int)

  predicate IsLeapYear(y: int)
  {
    y % 4 == 0 && (y % 100 != 0 || y % 400 == 0)
  }

  function DaysInMonth(y: int, m: int): (n: int)
    requires 1 <= m <= 12
    ensures 28 <= n <= 31
    ensures m == 2 ==> (n == 29 <==> IsLeapYear(y))
    ensures m != 2 ==> (n == 30 <==> m in {4, 6, 9, 11})
    ensures m == 2 && !IsLeapYear(y) ==> n == 28
    ensures m in {1, 3, 5, 7, 8, 10, 12} ==> n == 31
  {
    if m == 2 then (if IsLeapYear(y) then 29 else 28)
    else if m == 4 || m == 6 || m == 9 || m == 11 then 30
    else 31
  }

  predicate ValidDate(d: Date)
  {
    1 <= d.month <= 12 && 1 <= d.day <= DaysInMonth(d.year, d.month)
  }

  /** `a` is a strictly earlier calendar day than `b`. */
  predicate Before(a: Date, b: Date)
  {
    a.year < b.year
    || (a.year == b.year && (a.month < b.month || (a.month == b.month && a.day < b.day)))
  }

  /** `a` is the same day as `b` or earlier. */
  predicate NotAfter(a: Date, b: Date)
  {
    !Before(b, a)
  }

  lemma NotAfterIsTotalOrder(a: Date, b: Date, c: Date)
    ensures NotAfter(a, a)
    ensures NotAfter(a, b) || NotAfter(b, a)
    ensures NotAfter(a, b) && NotAfter(b, a) ==> a == b
    ensures NotAfter(a, b) && NotAfter(b, c) ==> NotAfter(a, c)
    ensures Before(a, b) && Before(b, c) ==> Before(a, c)
  {
  }

  /** The day after `d`. */
  function NextDay(d: Date): (r: Date)
    requires ValidDate(d)
    ensures ValidDate(r) && Before(d, r)
    ensures forall x :: ValidDate(x) ==> (Before(d, x) <==> NotAfter(r, x))
  {
    if d.day < DaysInMonth(d.year, d.month) then d.(day := d.day + 1)
    else if d.month < 12 then Date(d.year, d.month + 1, 1)
    else Date(d.year + 1, 1, 1)
  }

  /** The day before `d`. */
  function PrevDay(d: Date): (r: Date)
    requires ValidDate(d)
    ensures ValidDate(r) && Before(r, d)
    ensures forall x :: ValidDate(x) ==> (Before(x, d) <==> NotAfter(x, r))
  {
    if d.day > 1 then d.(day := d.day - 1)
    else if d.month > 1 then Date(d.year, d.month - 1, DaysInMonth(d.year, d.month - 1))
    else Date(d.year - 1, 12, 31)
  }

  /** NextDay and PrevDay undo each other. */
  lemma NextPrevInverse(d: Date)
    requires ValidDate(d)
    ensures PrevDay(NextDay(d)) == d
    ensures NextDay(PrevDay(d)) == d
  {
  }

  /** `setDate(getDate() + n)`: the day `n` days after `d` (before it when
      `n` is negative), moving one day at a time across month and year ends. */
  function AddDays(d: Date, n: int): (r: Date)
    requires ValidDate(d)
    ensures ValidDate(r)
    decreases if n >= 0 then n else -n
  {
    if n == 0 then d
    else if n > 0 then NextDay(AddDays(d, n - 1))
    else PrevDay(AddDays(d, n + 1))
  }

  /** One more day of offset is one NextDay further, for any offset. */
  lemma AddDaysStep(d: Date, n: int)
    requires ValidDate(d)
    ensures AddDays(d, n + 1) == NextDay(AddDays(d, n))
  {
    if n < 0 {
      NextPrevInverse(AddDays(d, n + 1));
    }
  }

  /** A larger offset is a strictly later day. */
  lemma {:induction false} AddDaysStrictlyMonotone(d: Date, a: int, b: int)
    requires ValidDate(d)
    requires a < b
    ensures Before(AddDays(d, a), AddDays(d, b))
    decreases b - a
  {
    AddDaysStep(d, b - 1);
    if a < b - 1 {
      AddDaysStrictlyMonotone(d, a, b - 1);
      NotAfterIsTotalOrder(AddDays(d, a), AddDays(d, b - 1), AddDays(d, b));
    }
  }

  /** The first day of the month that follows month `m` of year `y`
      (`new Date(y, m + 1, 1)` with JavaScript's 0-based month). */
  function FirstOfNextMonth(y: int, m: int): (r: Date)
    requires 1 <= m <= 12
    ensures ValidDate(r) && r.day == 1
    ensures r == NextDay(Date(y, m, DaysInMonth(y, m)))
  {
    if m < 12 then Date(y, m + 1, 1) else Date(y + 1, 1, 1)
  }

  /** `new Date(y, m + 1, 0)`: day 0 of the next month, normalised to the
      day before that month's first day. */
  function DayZeroOfNextMonth(y: int, m: int): (r: Date)
    requires 1 <= m <= 12
    ensures ValidDate(r)
  {
    PrevDay(FirstOfNextMonth(y, m))
  }

  /** Day 0 of the next month is the last day of the month, leap years included. */
  lemma DayZeroIsLastDay(y: int, m: int)
    requires 1 <= m <= 12
    ensures DayZeroOfNextMonth(y, m) == Date(y, m, DaysInMonth(y, m))
  {
  }

  /** A valid day lies between the first and the last day of a month exactly
      when it belongs to that month. */
  lemma {:induction false} MonthBounds(d: Date, y: int, m: int)
    requires ValidDate(d) && 1 <= m <= 12
    ensures NotAfter(Date(y, m, 1), d) && NotAfter(d, DayZeroOfNextMonth(y, m))
            <==> d.year == y && d.month == m
  {
    DayZeroIsLastDay(y, m);
  }
}
