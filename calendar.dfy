/**
 * Calendar days in the Gregorian calendar: month lengths with the leap-year
 * rule, and the day arithmetic (`DateTime + n`, `DateTime - 1`) that the
 * invoice month boundaries are computed with.  Times of day are not modelled.
 */
module Calendar {

  datatype Date = Date(year: int, month: int, day: int)

  /** Gregorian rule: divisible by 4, and not by 100 unless by 400. */
  predicate IsLeapYear(y: int) {
    y % 4 == 0 && (y % 100 != 0 || y % 400 == 0)
  }

  predicate IsLongMonth(m: int) {
    m == 1 || m == 3 || m == 5 || m == 7 || m == 8 || m == 10 || m == 12
  }

  /** Number of days of month m of year y; any month number other than the
      long ones and February has 30 days, as in the age computation. */
  function DaysInMonth(y: int, m: int): (n: int)
    ensures 28 <= n <= 31
    ensures n == 31 <==> IsLongMonth(m)
    ensures n == 29 <==> m == 2 && IsLeapYear(y)
    ensures n == 28 <==> m == 2 && !IsLeapYear(y)
  {
    if IsLongMonth(m) then 31
    else if m == 2 then (if IsLeapYear(y) then 29 else 28)
    else 30
  }

  predicate ValidDate(d: Date) {
    1 <= d.month <= 12 && 1 <= d.day <= DaysInMonth(d.year, d.month)
  }

  /** Strict chronological order of days. */
  predicate Before(a: Date, b: Date) {
    a.year < b.year
    || (a.year == b.year && a.month < b.month)
    || (a.year == b.year && a.month == b.month && a.day < b.day)
  }

  /** The (year, month) that follows month m of year y. */
  function NextMonth(y: int, m: int): (r: (int, int))
    requires 1 <= m <= 12
    ensures 1 <= r.1 <= 12 && r.1 != m
  {
    if m < 12 then (y, m + 1) else (y + 1, 1)
  }

  /** The (year, month) that precedes month m of year y. */
  function PrevMonth(y: int, m: int): (r: (int, int))
    requires 1 <= m <= 12
    ensures 1 <= r.1 <= 12 && NextMonth(r.0, r.1) == (y, m)
  {
    if m > 1 then (y, m - 1) else (y - 1, 12)
  }

  /** `DateTime + 1`: the day after, with no valid date in between. */
  function NextDay(d: Date): (r: Date)
    requires ValidDate(d)
    ensures ValidDate(r) && Before(d, r)
    ensures forall e :: ValidDate(e) && Before(d, e) ==> !Before(e, r)
  {
    if d.day < DaysInMonth(d.year, d.month) then Date(d.year, d.month, d.day + 1)
    else
      var (y, m) := NextMonth(d.year, d.month);
      Date(y, m, 1)
  }

  /** `DateTime - 1`: the day before. */
  function PrevDay(d: Date): (r: Date)
    requires ValidDate(d)
    ensures ValidDate(r) && Before(r, d)
    ensures NextDay(r) == d
  {
    if d.day > 1 then Date(d.year, d.month, d.day - 1)
    else
      var (y, m) := PrevMonth(d.year, d.month);
      Date(y, m, DaysInMonth(y, m))
  }

  /** `DateTime + n`: n days later. */
  function AddDays(d: Date, n: nat): (r: Date)
    requires ValidDate(d)
    ensures ValidDate(r)
    ensures n == 0 ==> r == d
    ensures n > 0 ==> Before(d, r)
    decreases n
  {
    if n == 0 then d else AddDays(NextDay(d), n - 1)
  }

  /** Moving forward inside one month only changes the day number. */
  lemma {:induction false} AddDaysWithinMonth(d: Date, k: nat)
    requires ValidDate(d) && d.day + k <= DaysInMonth(d.year, d.month)
    ensures AddDays(d, k) == Date(d.year, d.month, d.day + k)
    decreases k
  {
    if k > 0 {
      AddDaysWithinMonth(NextDay(d), k - 1);
    }
  }

  lemma {:induction false} AddDaysSplit(d: Date, a: nat, b: nat)
    requires ValidDate(d)
    ensures AddDays(d, a + b) == AddDays(AddDays(d, a), b)
    decreases a
  {
    if a > 0 {
      AddDaysSplit(NextDay(d), a - 1, b);
    }
  }

  /** Day 1 of a month plus 31 days lands in the next month, on day
      32 minus the length of the month. */
  lemma FirstPlus31(y: int, m: int)
    requires 1 <= m <= 12
    ensures var (ny, nm) := NextMonth(y, m);
            AddDays(Date(y, m, 1), 31) == Date(ny, nm, 32 - DaysInMonth(y, m))
  {
    var len := DaysInMonth(y, m);
    var (ny, nm) := NextMonth(y, m);
    AddDaysSplit(Date(y, m, 1), len - 1, 32 - len);
    AddDaysWithinMonth(Date(y, m, 1), len - 1);
    assert AddDays(Date(y, m, len), 32 - len) == AddDays(Date(ny, nm, 1), 31 - len);
    AddDaysWithinMonth(Date(ny, nm, 1), 31 - len);
  }
}
